/** POSIX path helpers as the backend uses them: `basename`, `extname` and `join`.
    `basename` is the part after the last `/`; `extname` starts at the last `.` of
    the basename unless that dot is its first character; `join` puts one `/`
    between a directory and a file name. */
module Paths {
  import opened Text

  function Basename(p: string): (b: string)
    ensures '/' !in b
    ensures |b| <= |p| && b == p[|p| - |b|..]
    ensures |b| == |p| || p[|p| - |b| - 1] == '/'
  {
    p[LastIndexOf(p, '/') + 1..]
  }

  /** The extension of a base name: empty, or a `.` with no further `.`; it is
      non-empty exactly when the name has a `.` after its first character. Being a
      tail of the name, it is then the name's tail from its last `.`. */
  function ExtOfName(b: string): (e: string)
    ensures e == [] || (e[0] == '.' && '.' !in e[1..])
    ensures |e| <= |b| && e == b[|b| - |e|..]
    ensures e != [] <==> exists k :: 0 < k < |b| && b[k] == '.'
  {
    var i := LastIndexBefore(b, '.', |b|);
    if i <= 0 then "" else
      NoneAfter(b, '.', i);
      b[i..]
  }

  /** A character that occurs nowhere after position `i` is not in the tail after `i`. */
  lemma NoneAfter(s: string, c: char, i: nat)
    requires i < |s|
    requires forall k :: i < k < |s| ==> s[k] != c
    ensures c !in s[i + 1..]
  {
    var t := s[i + 1..];
    assert forall j :: 0 <= j < |t| ==> t[j] == s[i + 1 + j];
  }

  /** A tail of a string holds only characters of the string. */
  lemma NotInTail(s: string, t: string, c: char)
    requires c !in s
    requires |t| <= |s| && t == s[|s| - |t|..]
    ensures c !in t
  {
    assert forall j :: 0 <= j < |t| ==> t[j] == s[|s| - |t| + j];
  }

  /** `path.extname`: the extension of the base name. */
  function Extname(p: string): (e: string)
    ensures e == [] || (e[0] == '.' && '.' !in e[1..])
    ensures '/' !in e
    ensures |e| <= |Basename(p)| && e == Basename(p)[|Basename(p)| - |e|..]
    ensures e != [] <==> exists k :: 0 < k < |Basename(p)| && Basename(p)[k] == '.'
  {
    var e := ExtOfName(Basename(p));
    NotInTail(Basename(p), e, '/');
    e
  }

  function JoinPath(dir: string, name: string): string {
    dir + "/" + name
  }

  /** The path of a stored file inside `dir`: whatever directories the stored path
      names, only its last component is kept, so the result is `dir/` followed by
      a name with no `/` in it. */
  function ResolveInDir(dir: string, stored: string): (r: string)
    ensures |r| > |dir| && r[..|dir| + 1] == dir + "/"
    ensures '/' !in r[|dir| + 1..]
    ensures r[|dir| + 1..] == Basename(stored)
  {
    var r := JoinPath(dir, Basename(stored));
    assert r[|dir| + 1..] == Basename(stored);
    r
  }

  /** Two stored paths that end in the same file name resolve to the same file. */
  lemma ResolveIgnoresDirectories(dir: string, a: string, b: string, name: string)
    requires '/' !in name
    requires a == b + "/" + name || a == name
    ensures ResolveInDir(dir, a) == JoinPath(dir, name)
  {
    LastSlashIsBeforeName(a, name);
  }

  lemma LastSlashIsBeforeName(a: string, name: string)
    requires '/' !in name
    requires |a| >= |name| && a[|a| - |name|..] == name
    requires |a| == |name| || a[|a| - |name| - 1] == '/'
    ensures Basename(a) == name
  {
  }

  /** A path with no `/` is its own base name. */
  lemma BasenameOfPlain(p: string)
    requires '/' !in p
    ensures Basename(p) == p
  {
    assert p[0..] == p;
  }

  /** The extension of a plain name whose last `.` is at `k > 0` starts there. */
  lemma ExtnameAt(p: string, k: nat)
    requires '/' !in p
    requires 0 < k < |p| && p[k] == '.' && '.' !in p[k + 1..]
    ensures Extname(p) == p[k..]
  {
    BasenameOfPlain(p);
  }

  /** A plain, dot-free, non-empty stem followed by an extension-shaped tail has
      that tail as its extension. */
  lemma ExtnameOfStem(stem: string, ext: string)
    requires stem != [] && '/' !in stem && '.' !in stem
    requires '/' !in ext && (ext == [] || (ext[0] == '.' && '.' !in ext[1..]))
    ensures Extname(stem + ext) == ext
  {
    var s := stem + ext;
    assert '/' !in s;
    if ext == [] {
      assert s == stem;
      ExtnameNone(s);
    } else {
      assert s[|stem|..] == ext && s[|stem| + 1..] == ext[1..];
      ExtnameAt(s, |stem|);
    }
  }

  /** A plain name with no `.` has no extension. */
  lemma ExtnameNone(p: string)
    requires '/' !in p && '.' !in p
    ensures Extname(p) == ""
  {
    BasenameOfPlain(p);
  }
}
