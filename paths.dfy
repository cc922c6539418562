/** Go's `filepath.Dir`, `filepath.Base` and `path.Join` on slash-separated
    paths, restricted to clean paths (no empty, "." or ".." element, no
    trailing slash), on which they need no `Clean` step. */
module Paths {
  import opened Wrappers

  /** One path element: non-empty, no separator, not "." or "..". */
  predicate IsElement(e: string) {
    |e| > 0 && '/' !in e && e != "." && e != ".."
  }

  /** Index of the last '/' in `p`, or -1 when there is none. */
  function LastSlash(p: string): (i: int)
    ensures -1 <= i < |p|
    ensures i >= 0 ==> p[i] == '/'
  {
    if |p| == 0 then -1
    else if p[|p| - 1] == '/' then |p| - 1
    else LastSlash(p[..|p| - 1])
  }

  /** A clean path naming a file: an element, "/" and an element, or a
      clean path, "/" and an element. */
  predicate IsCleanFilePath(p: string)
    decreases |p|
  {
    var i := LastSlash(p);
    if i < 0 then IsElement(p)
    else IsElement(p[i + 1..]) && (i == 0 || IsCleanFilePath(p[..i]))
  }

  /** A clean directory: ".", "/" or a clean path. */
  predicate IsCleanDir(d: string) {
    d == "." || d == "/" || IsCleanFilePath(d)
  }

  /** `filepath.Dir`: everything before the last element. */
  function Dir(p: string): string {
    var i := LastSlash(p);
    if i < 0 then "." else if i == 0 then "/" else p[..i]
  }

  /** `filepath.Base`: the last element. */
  function Base(p: string): string {
    p[LastSlash(p) + 1..]
  }

  /** `path.Join(dir, elem)` for a clean directory and one element. */
  function Join(dir: string, elem: string): string {
    if dir == "." then elem
    else if dir == "/" then "/" + elem
    else dir + "/" + elem
  }

  /** The last slash is the slash with no slash after it. */
  lemma {:induction false} LastSlashAt(p: string, j: int)
    requires 0 <= j < |p| && p[j] == '/'
    requires forall k :: j < k < |p| ==> p[k] != '/'
    ensures LastSlash(p) == j
  {
    if j < |p| - 1 {
      LastSlashAt(p[..|p| - 1], j);
    }
  }

  /** No slash follows the last one. */
  lemma {:induction false} NoSlashAfterLast(p: string)
    ensures forall k :: LastSlash(p) < k < |p| ==> p[k] != '/'
  {
    if |p| > 0 && p[|p| - 1] != '/' {
      var q := p[..|p| - 1];
      NoSlashAfterLast(q);
      assert forall k :: LastSlash(q) < k < |q| ==> p[k] == q[k];
    }
  }

  /** A string without a slash has no last slash. */
  lemma NoLastSlash(e: string)
    requires '/' !in e
    ensures LastSlash(e) == -1
  {
  }

  /** Characters without a slash do not move the last slash. */
  lemma {:induction false} LastSlashPastElement(q: string, e: string)
    requires '/' !in e
    ensures LastSlash(q + e) == LastSlash(q)
  {
    if |e| == 0 {
      assert q + e == q;
    } else {
      var shorter := e[..|e| - 1];
      assert (q + e)[..|q + e| - 1] == q + shorter;
      assert (q + e)[|q + e| - 1] == e[|e| - 1] && e[|e| - 1] in e;
      assert '/' !in shorter by {
        forall c | c in shorter ensures c in e {
          var i :| 0 <= i < |shorter| && shorter[i] == c;
          assert e[i] == c;
        }
      }
      LastSlashPastElement(q, shorter);
    }
  }

  /** Appending "/" and an element puts the last slash right before it. */
  lemma LastSlashOfAppended(d: string, e: string)
    requires '/' !in e
    ensures LastSlash(d + "/" + e) == |d|
  {
    var q := d + "/";
    assert q[|q| - 1] == '/';
    LastSlashPastElement(q, e);
  }

  /** A clean file path is its directory joined with its base; the base is
      an element and the directory is clean. */
  lemma DirBaseJoin(p: string)
    requires IsCleanFilePath(p)
    ensures IsElement(Base(p))
    ensures IsCleanDir(Dir(p))
    ensures Join(Dir(p), Base(p)) == p
  {
    var i := LastSlash(p);
    if i < 0 {
    } else if i == 0 {
      assert p == "/" + p[1..];
    } else {
      assert p[..i] != "." && p[..i] != "/" by {
        NoSlashAtEnd(p[..i]);
      }
      assert p == p[..i] + "/" + p[i + 1..];
    }
  }

  /** A clean file path does not end in a slash. */
  lemma NoSlashAtEnd(p: string)
    requires IsCleanFilePath(p)
    ensures |p| > 0 && p[|p| - 1] != '/'
    ensures p != "." && p != "/"
  {
    var i := LastSlash(p);
    assert IsElement(if i < 0 then p else p[i + 1..]);
    if i >= 0 {
      var e := p[i + 1..];
      assert e[|e| - 1] == p[|p| - 1];
      assert p[|p| - 1] in e;
    } else {
      assert p[|p| - 1] in p;
    }
  }

  /** Joining a clean directory with an element gives a clean file path
      whose directory and base are the two parts. */
  lemma JoinDirBase(d: string, e: string)
    requires IsCleanDir(d) && IsElement(e)
    ensures IsCleanFilePath(Join(d, e))
    ensures Dir(Join(d, e)) == d
    ensures Base(Join(d, e)) == e
  {
    if d == "." {
      NoLastSlash(e);
    } else if d == "/" {
      LastSlashOfAppended("", e);
      assert "" + "/" + e == "/" + e;
      assert ("/" + e)[1..] == e;
    } else {
      LastSlashOfAppended(d, e);
      var p := d + "/" + e;
      assert p[..|d|] == d;
      assert p[|d| + 1..] == e;
      NoSlashAtEnd(d);
    }
  }

  /** `filepath.Abs` on a clean path: an absolute path is kept; a relative
      one is joined to the working directory, which `os.Getwd` may fail to
      report (None). */
  function Abs(p: string, wd: Option<string>): Option<string> {
    if |p| > 0 && p[0] == '/' then Some(p)
    else if wd.None? then None
    else Some(Join(wd.value, p))
  }

  /** The last slash of a concatenation, when the second part has one. */
  lemma LastSlashOfConcat(a: string, p: string)
    requires LastSlash(p) >= 0
    ensures LastSlash(a + p) == |a| + LastSlash(p)
  {
    var q := a + p;
    var j := |a| + LastSlash(p);
    NoSlashAfterLast(p);
    assert q[j] == p[LastSlash(p)];
    forall k | j < k < |q| ensures q[k] != '/' {
      assert q[k] == p[k - |a|];
    }
    LastSlashAt(q, j);
  }

  /** Putting a directory ending in a slash in front keeps the base. */
  lemma BaseAfterPrefix(a: string, p: string)
    requires |a| > 0 && a[|a| - 1] == '/'
    ensures Base(a + p) == Base(p)
  {
    if LastSlash(p) >= 0 {
      LastSlashOfConcat(a, p);
      assert (a + p)[|a| + LastSlash(p) + 1..] == p[LastSlash(p) + 1..];
    } else {
      NoSlashAfterLast(p);
      assert '/' !in p by {
        forall k | 0 <= k < |p| ensures p[k] != '/' {
        }
      }
      LastSlashPastElement(a, p);
      assert (a + p)[|a|..] == p;
    }
  }

  /** Making a clean path absolute keeps its base. */
  lemma AbsKeepsBase(p: string, wd: string)
    requires IsCleanFilePath(p) && IsCleanDir(wd) && wd != "."
    ensures Abs(p, Some(wd)).Some?
    ensures Base(Abs(p, Some(wd)).value) == Base(p)
  {
    if !(|p| > 0 && p[0] == '/') {
      if wd == "/" {
        assert Join(wd, p) == "/" + p;
        BaseAfterPrefix("/", p);
      } else {
        NoSlashAtEnd(wd);
        var a := wd + "/";
        assert Join(wd, p) == a + p;
        BaseAfterPrefix(a, p);
      }
    }
  }
}
