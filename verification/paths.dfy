/** The parts of Python's `posixpath` the scripts use: `join` of two
    components, `basename` and the root half of `splitext`. */
module Paths {
  import opened Text

  /** `os.path.join(a, b)`: an absolute `b` discards `a`; otherwise one `/`
      separates them unless `a` is empty or already ends in `/`. */
  function Join(a: string, b: string): string {
    if |b| > 0 && b[0] == '/' then b
    else if |a| == 0 || a[|a| - 1] == '/' then a + b
    else a + "/" + b
  }

  /** Joining one directory with two different relative names gives two
      different paths. */
  lemma JoinRelativeInjective(a: string, b1: string, b2: string)
    requires b1 != b2
    requires b1 == [] || b1[0] != '/'
    requires b2 == [] || b2[0] != '/'
    ensures Join(a, b1) != Join(a, b2)
  {
    var p := if |a| == 0 || a[|a| - 1] == '/' then a else a + "/";
    assert Join(a, b1) == p + b1 && Join(a, b2) == p + b2;
    assert (p + b1)[|p|..] == b1 && (p + b2)[|p|..] == b2;
  }

  /** Index of the last `c` in `s`, or -1 (Python's `s.rfind(c)`). */
  function LastIndexOf(s: string, c: char): (k: int)
    ensures -1 <= k < |s|
    ensures k >= 0 ==> s[k] == c
    ensures forall i :: k < i < |s| ==> s[i] != c
  {
    if |s| == 0 then -1
    else if s[|s| - 1] == c then |s| - 1
    else LastIndexOf(s[..|s| - 1], c)
  }

  /** `os.path.basename(p)`: everything after the last `/`. */
  function Basename(p: string): (b: string)
    ensures '/' !in b
    ensures EndsWith(p, b)
    ensures b != p ==> p[|p| - |b| - 1] == '/'
  {
    p[LastIndexOf(p, '/') + 1..]
  }

  lemma BasenameAfterSlash(dir: string, name: string)
    requires '/' !in name
    ensures Basename(dir + "/" + name) == name
  {
    var p := dir + "/" + name;
    var k := LastIndexOf(p, '/');
    assert p[|dir|] == '/';
    assert k == |dir| by {
      forall i | |dir| < i < |p|
        ensures p[i] != '/'
      {
        assert p[i] == name[i - |dir| - 1];
      }
    }
    assert p[k + 1..] == name;
  }

  predicate AllDots(s: string) {
    forall i :: 0 <= i < |s| ==> s[i] == '.'
  }

  /** `os.path.splitext(p)[0]`: `p` without its extension, the extension being
      the text from the last `.` of the last component, unless that component
      is nothing but dots up to it (a leading-dot name has no extension). */
  function SplitExtRoot(p: string): string {
    var sep := LastIndexOf(p, '/');
    var dot := LastIndexOf(p, '.');
    if dot > sep && !AllDots(p[sep + 1..dot]) then p[..dot] else p
  }

  /** The extension is cut at the last dot of a slash-free name. */
  lemma SplitExtRootOfName(stem: string, ext: string)
    requires '/' !in stem && '/' !in ext
    requires |ext| >= 1 && ext[0] == '.' && '.' !in ext[1..]
    ensures SplitExtRoot(stem + ext) == if AllDots(stem) then stem + ext else stem
  {
    var p := stem + ext;
    assert forall i :: 0 <= i < |p| ==> p[i] != '/' by {
      forall i | 0 <= i < |p|
        ensures p[i] != '/'
      {
        if i < |stem| {
          assert p[i] == stem[i];
        } else {
          assert p[i] == ext[i - |stem|];
        }
      }
    }
    assert LastIndexOf(p, '/') == -1;
    assert p[|stem|] == '.';
    assert LastIndexOf(p, '.') == |stem| by {
      forall i | |stem| < i < |p|
        ensures p[i] != '.'
      {
        assert p[i] == ext[1..][i - |stem| - 1];
      }
    }
    assert p[0..|stem|] == stem;
    assert p[..|stem|] == stem;
  }
}
