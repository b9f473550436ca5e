/** Path strings as the upload command builds them: `os.path.join` on a POSIX
    host (separator '/'), the relative path of a walked file, and the chain of
    `root` strings that a top-down directory walk produces. */
module Paths {

  /** A name as a directory listing reports it: non-empty, without a
      separator, and neither "." nor "..", which no listing contains. */
  predicate ValidName(n: string) {
    n != [] && '/' !in n && n != "." && n != ".."
  }

  predicate ValidNames(p: seq<string>) {
    forall k :: 0 <= k < |p| ==> ValidName(p[k])
  }

  predicate Absolute(s: string) {
    s != [] && s[0] == '/'
  }

  /** `os.path.join(a, b)` for two arguments: an absolute `b` replaces `a`,
      otherwise `b` is appended, with a separator unless `a` is empty or
      already ends in one. */
  function Join(a: string, b: string): (r: string)
  {
    if Absolute(b) then b
    else if a == [] || a[|a| - 1] == '/' then a + b
    else a + "/" + b
  }

  /** The part `Join(a, _)` puts in front of a relative `b`; it depends on `a` alone. */
  function JoinLead(a: string): string {
    if a == [] || a[|a| - 1] == '/' then a else a + "/"
  }

  lemma JoinRelative(a: string, b: string)
    requires !Absolute(b)
    ensures Join(a, b) == JoinLead(a) + b
  {
  }

  /** Joining onto a fixed directory never maps two relative paths to one string. */
  lemma JoinInjective(a: string, b1: string, b2: string)
    requires !Absolute(b1) && !Absolute(b2)
    requires Join(a, b1) == Join(a, b2)
    ensures b1 == b2
  {
    var lead := JoinLead(a);
    JoinRelative(a, b1);
    JoinRelative(a, b2);
    assert b1 == (lead + b1)[|lead|..];
    assert b2 == (lead + b2)[|lead|..];
  }

  /** The relative path of a file below the sync root, written with '/'
      between the names. That `os.path.relpath` of the joined path returns
      this string for valid names is a property of `os.path` taken as given,
      not proved here. */
  function Render(p: seq<string>): (r: string)
    decreases |p|
  {
    if p == [] then []
    else if |p| == 1 then p[0]
    else p[0] + "/" + Render(p[1..])
  }

  lemma RenderRelative(p: seq<string>)
    requires p != [] && ValidNames(p)
    ensures Render(p) != [] && !Absolute(Render(p))
  {
    assert ValidName(p[0]);
    assert Render(p)[0] == p[0][0];
  }

  /** Where the first name of a rendered path ends: no separator before it,
      one right after it when more names follow. */
  lemma RenderHead(p: seq<string>)
    requires p != [] && ValidNames(p)
    ensures |Render(p)| >= |p[0]| && Render(p)[..|p[0]|] == p[0]
    ensures forall i :: 0 <= i < |p[0]| ==> Render(p)[i] != '/'
    ensures |p| == 1 ==> Render(p) == p[0]
    ensures |p| > 1 ==> |Render(p)| > |p[0]| && Render(p)[|p[0]|] == '/'
    ensures |p| > 1 ==> Render(p)[|p[0]| + 1..] == Render(p[1..])
  {
    assert ValidName(p[0]);
    if |p| > 1 {
      var s := Render(p);
      assert s == p[0] + "/" + Render(p[1..]);
      assert s[..|p[0]|] == p[0];
      forall i | 0 <= i < |p[0]| ensures s[i] != '/' {
        assert s[i] == p[0][i];
      }
    }
  }

  /** A relative path names one list of names: `Render` is injective on valid names. */
  lemma {:induction false} RenderInjective(p: seq<string>, q: seq<string>)
    requires p != [] && q != [] && ValidNames(p) && ValidNames(q)
    requires Render(p) == Render(q)
    ensures p == q
    decreases |p|
  {
    var s := Render(p);
    RenderHead(p);
    RenderHead(q);
    assert ValidName(p[0]) && ValidName(q[0]);
    assert |p| > 1 <==> |s| > |p[0]|;
    assert |q| > 1 <==> |s| > |q[0]|;
    assert |p[0]| == |q[0]|;
    assert p[0] == q[0];
    if |p| > 1 {
      assert ValidNames(p[1..]) && ValidNames(q[1..]);
      RenderInjective(p[1..], q[1..]);
      assert p == [p[0]] + p[1..];
      assert q == [q[0]] + q[1..];
    }
  }

  /** The string a top-down walk reaches by joining the names of `p`, one
      directory level at a time, onto `root`. */
  function PathOf(root: string, p: seq<string>): string
    decreases |p|
  {
    if p == [] then root else PathOf(Join(root, p[0]), p[1..])
  }

  /** One more directory level: the walk joins the file name onto the root it reached. */
  lemma {:induction false} PathOfSnoc(root: string, p: seq<string>, n: string)
    ensures PathOf(root, p + [n]) == Join(PathOf(root, p), n)
    decreases |p|
  {
    if p != [] {
      assert (p + [n])[1..] == p[1..] + [n];
      PathOfSnoc(Join(root, p[0]), p[1..], n);
    }
  }

  /** Joining a name and then a relative path is joining the longer relative path. */
  lemma JoinJoin(r: string, a: string, b: string)
    requires ValidName(a) && !Absolute(b)
    ensures Join(Join(r, a), b) == Join(r, a + "/" + b)
  {
    var lead := JoinLead(r);
    var ab := a + "/" + b;
    assert ab[0] == a[0];
    JoinRelative(r, a);
    JoinRelative(r, ab);
    var ra := lead + a;
    assert ra[|ra| - 1] == a[|a| - 1];
    assert JoinLead(ra) == ra + "/";
    JoinRelative(ra, b);
    assert ra + "/" + b == lead + ab;
  }

  /** The walked path of a file is the sync root joined with its relative path. */
  lemma {:induction false} PathOfIsJoin(root: string, p: seq<string>)
    requires p != [] && ValidNames(p)
    ensures PathOf(root, p) == Join(root, Render(p))
    decreases |p|
  {
    if |p| > 1 {
      assert ValidName(p[0]) && ValidNames(p[1..]);
      PathOfIsJoin(Join(root, p[0]), p[1..]);
      RenderRelative(p[1..]);
      JoinJoin(root, p[0], Render(p[1..]));
    }
  }

  /** Two different relative paths below one root never name the same local file. */
  lemma PathOfInjective(root: string, p: seq<string>, q: seq<string>)
    requires p != [] && q != [] && ValidNames(p) && ValidNames(q)
    requires PathOf(root, p) == PathOf(root, q)
    ensures p == q
  {
    PathOfIsJoin(root, p);
    PathOfIsJoin(root, q);
    RenderRelative(p);
    RenderRelative(q);
    JoinInjective(root, Render(p), Render(q));
    RenderInjective(p, q);
  }
}
