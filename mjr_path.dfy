/** The rule that turns a directory and a recording name into the path
    that is opened: ".mjr" is appended unless the name already contains it
    anywhere (a substring test, not a suffix test). */
module MjrPath {

  const Ext: string := ".mjr"

  /** `strstr(s, t) != NULL`: t occurs in s at some position. */
  predicate Contains(s: string, t: string)
    decreases |s|
  {
    if |s| < |t| then false
    else s[..|t|] == t || (|s| > 0 && Contains(s[1..], t))
  }

  lemma {:induction false} ContainsAt(s: string, t: string, i: nat)
    requires i + |t| <= |s| && s[i..i + |t|] == t
    ensures Contains(s, t)
    decreases i
  {
    if i > 0 {
      assert s[1..][i - 1..i - 1 + |t|] == s[i..i + |t|];
      ContainsAt(s[1..], t, i - 1);
    }
  }

  lemma {:induction false} ContainsSuffix(s: string, t: string)
    ensures Contains(s + t, t)
  {
    var u := s + t;
    assert u[|s|..|s| + |t|] == t;
    ContainsAt(u, t, |s|);
  }

  /** The path built for `fopen`. */
  function SourcePath(dir: string, filename: string): string
  {
    if Contains(filename, Ext) then dir + "/" + filename
    else dir + "/" + filename + Ext
  }

  /** The path is the directory, a slash and the name, with ".mjr" added
      exactly when the name lacks it. */
  lemma {:induction false} SourcePathKeepsName(dir: string, filename: string)
    ensures var base := dir + "/" + filename;
            |base| <= |SourcePath(dir, filename)| && SourcePath(dir, filename)[..|base|] == base
    ensures SourcePath(dir, filename) == dir + "/" + filename <==> Contains(filename, Ext)
  {
    var base := dir + "/" + filename;
    if !Contains(filename, Ext) {
      assert (base + Ext)[..|base|] == base;
    }
  }

  /** Whatever name is given, the opened path mentions ".mjr". */
  lemma {:induction false} SourcePathHasExtension(dir: string, filename: string)
    ensures Contains(SourcePath(dir, filename), Ext)
  {
    if Contains(filename, Ext) {
      ContainsRight(dir + "/", filename, Ext);
      assert dir + "/" + filename == (dir + "/") + filename;
    } else {
      ContainsSuffix(dir + "/" + filename, Ext);
    }
  }

  /** A name without the extension and the same name with it appended
      open the same file. */
  lemma {:induction false} SourcePathExtensionOptional(dir: string, filename: string)
    requires !Contains(filename, Ext)
    ensures SourcePath(dir, filename) == SourcePath(dir, filename + Ext)
  {
    ContainsSuffix(filename, Ext);
    assert dir + "/" + (filename + Ext) == dir + "/" + filename + Ext;
  }

  lemma {:induction false} ContainsRight(s: string, u: string, t: string)
    requires Contains(u, t)
    ensures Contains(s + u, t)
  {
    var i := ContainsWitness(u, t);
    assert (s + u)[|s| + i..|s| + i + |t|] == u[i..i + |t|];
    ContainsAt(s + u, t, |s| + i);
  }

  lemma {:induction false} ContainsWitness(s: string, t: string) returns (i: nat)
    requires Contains(s, t)
    ensures i + |t| <= |s| && s[i..i + |t|] == t
    decreases |s|
  {
    if s[..|t|] == t {
      i := 0;
    } else {
      var j := ContainsWitness(s[1..], t);
      assert s[1..][j..j + |t|] == s[j + 1..j + 1 + |t|];
      i := j + 1;
    }
  }
}
