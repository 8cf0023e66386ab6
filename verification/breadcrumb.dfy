/**
 * The dashboard breadcrumb: one entry for home, then one per segment of the
 * current pathname, each linking to the path made of the segments so far.
 */
module Breadcrumb {
  import opened Paths

  datatype Crumb = Crumb(title: string, path: string)

  /** What the bar shows for a crumb: a link, or plain text for the last one. */
  datatype Item = Link(title: string, to: string) | Text(title: string)

  /** `toUpperCase` on one character, for the ASCII letters. */
  function UpperAscii(c: char): (u: char)
    ensures 'a' <= c <= 'z' ==> 'A' <= u <= 'Z' && u as int == c as int - 32
    ensures !('a' <= c <= 'z') ==> u == c
  {
    if 'a' <= c <= 'z' then (c as int - 32) as char else c
  }

  /** `s.charAt(0).toUpperCase() + s.slice(1)`. */
  function Capitalize(s: string): (t: string)
    ensures |t| == |s|
    ensures s != "" ==> t[0] == UpperAscii(s[0]) && t[1..] == s[1..]
  {
    if s == "" then "" else [UpperAscii(s[0])] + s[1..]
  }

  const HomeCrumb: Crumb := Crumb("Home", "/")

  /** The crumbs of a pathname: home, then one per segment. */
  function Crumbs(pathname: string): (r: seq<Crumb>)
    ensures |r| == |Segments(pathname)| + 1
    ensures r[0] == HomeCrumb
  {
    var segs := Segments(pathname);
    [HomeCrumb] + seq(|segs|, i requires 0 <= i < |segs| =>
      Crumb(Capitalize(segs[i]), "/" + Join(segs[..i + 1])))
  }

  /** Crumb i (after home) is titled by segment i and leads to the location made of the first i segments. */
  lemma CrumbLeadsToPrefix(pathname: string, i: nat)
    requires 1 <= i <= |Segments(pathname)|
    ensures Crumbs(pathname)[i].title == Capitalize(Segments(pathname)[i - 1])
    ensures Segments(Crumbs(pathname)[i].path) == Segments(pathname)[..i]
  {
    var segs := Segments(pathname);
    SegmentsAreSegments(pathname);
    SegmentsOfPath(segs[..i]);
  }

  /** The last crumb leads to the same location as the pathname, with extra slashes dropped. */
  lemma LastCrumbIsHere(pathname: string)
    ensures Segments(Crumbs(pathname)[|Segments(pathname)|].path) == Segments(pathname)
  {
    var n := |Segments(pathname)|;
    if n == 0 {
      assert Split("/") == [""] + Split("");
    } else {
      CrumbLeadsToPrefix(pathname, n);
      assert Segments(pathname)[..n] == Segments(pathname);
    }
  }

  /** Crumb i + 1 in terms of the segments. */
  lemma CrumbAt(pathname: string, i: nat)
    requires i < |Segments(pathname)|
    ensures Crumbs(pathname)[i + 1] == Crumb(Capitalize(Segments(pathname)[i]), "/" + Join(Segments(pathname)[..i + 1]))
  {
  }

  /** The location of the first i segments is a prefix of that of the first i + 1. */
  lemma {:induction false} LocationGrows(segs: seq<string>, i: nat)
    requires i < |segs|
    ensures "/" + Join(segs[..i]) <= "/" + Join(segs[..i + 1])
  {
    var here, next := "/" + Join(segs[..i]), "/" + Join(segs[..i + 1]);
    if i > 0 {
      assert segs[..i + 1] == segs[..i] + [segs[i]];
      JoinSnoc(segs[..i], segs[i]);
      assert next == here + ("/" + segs[i]);
      assert next[..|here|] == here;
    } else {
      assert segs[..0] == [];
      assert here == "/" == next[..1];
    }
  }

  /** Each crumb's path is a prefix of the next one's. */
  lemma CrumbPathsNest(pathname: string, i: nat)
    requires i + 1 < |Crumbs(pathname)|
    ensures Crumbs(pathname)[i].path <= Crumbs(pathname)[i + 1].path
  {
    var segs := Segments(pathname);
    CrumbAt(pathname, i);
    LocationGrows(segs, i);
    if i > 0 {
      CrumbAt(pathname, i - 1);
      assert i - 1 + 1 == i;
    } else {
      assert segs[..0] == [];
    }
  }

  /** Repeated and trailing slashes add no crumbs. */
  lemma ExtraSlashesAddNothing(a: string, b: string)
    ensures Crumbs(a + "/" + b) == Crumbs(a + "//" + b)
    ensures Crumbs(a + "/") == Crumbs(a)
  {
    var sa, sb := Split(a), Split(b);
    assert a + "/" == a + "/" + "";
    SplitAround(a, "");
    assert Split(a + "/") == sa + [""];
    assert a + "//" + b == (a + "/") + "/" + b;
    SplitAround(a + "/", b);
    SplitAround(a, b);
    assert NonEmpty([""]) == [];
    NonEmptyAppend(sa, [""]);
    NonEmptyAppend(sa + [""], sb);
    NonEmptyAppend(sa, sb);
    assert Segments(a + "/" + b) == Segments(a + "//" + b);
    assert Segments(a + "/") == Segments(a);
  }

  /** The bar's items: every crumb but the last is a link. */
  function Items(crumbs: seq<Crumb>): (r: seq<Item>)
    ensures |r| == |crumbs|
    ensures forall i :: 0 <= i < |r| ==> r[i].title == crumbs[i].title
    ensures forall i :: 0 <= i < |r| ==> (r[i].Link? <==> i < |r| - 1)
    ensures forall i :: 0 <= i < |r| && r[i].Link? ==> r[i].to == crumbs[i].path
  {
    seq(|crumbs|, i requires 0 <= i < |crumbs| =>
      if i < |crumbs| - 1 then Link(crumbs[i].title, crumbs[i].path) else Text(crumbs[i].title))
  }
}
