/**
 * Pathname splitting and joining as the client components do it with
 * JavaScript's `split('/')`, `filter(x => x)` and `join('/')`.
 */
module Paths {
  /** `s.split('/')`: the pieces between slashes, empty ones included. */
  function Split(s: string): (r: seq<string>)
    ensures |r| >= 1
    ensures forall i :: 0 <= i < |r| ==> '/' !in r[i]
    decreases |s|
  {
    if s == [] then [""]
    else if s[0] == '/' then [""] + Split(s[1..])
    else
      var t := Split(s[1..]);
      [[s[0]] + t[0]] + t[1..]
  }

  /** `parts.join('/')`. */
  function Join(parts: seq<string>): string
  {
    if |parts| == 0 then ""
    else if |parts| == 1 then parts[0]
    else parts[0] + "/" + Join(parts[1..])
  }

  /** `parts.filter(x => x)`: the non-empty pieces, in order. */
  function NonEmpty(parts: seq<string>): (r: seq<string>)
    ensures forall x :: x in r <==> x in parts && x != ""
    ensures |r| <= |parts|
  {
    if parts == [] then []
    else if parts[0] != "" then [parts[0]] + NonEmpty(parts[1..])
    else NonEmpty(parts[1..])
  }

  /** `pathname.split('/').filter(x => x)`. */
  function Segments(p: string): seq<string>
  {
    NonEmpty(Split(p))
  }

  /** `pathname.split('/').pop()`: the piece after the last slash. */
  function LastPiece(p: string): string
  {
    var parts := Split(p);
    parts[|parts| - 1]
  }

  /** A piece that may stand between two slashes. */
  predicate IsSegment(x: string)
  {
    x != "" && '/' !in x
  }

  /** Splitting and joining again gives the original string back. */
  lemma {:induction false} JoinSplit(s: string)
    ensures Join(Split(s)) == s
    decreases |s|
  {
    if s == [] {
    } else if s[0] == '/' {
      JoinSplit(s[1..]);
      var t := Split(s[1..]);
      assert Join([""] + t) == "" + "/" + Join(t);
      assert s == "/" + s[1..];
    } else {
      JoinSplit(s[1..]);
      var t := Split(s[1..]);
      if |t| == 1 {
        assert s == [s[0]] + t[0];
      } else {
        assert ([[s[0]] + t[0]] + t[1..])[1..] == t[1..];
        assert Join(t) == t[0] + "/" + Join(t[1..]);
        assert s == [s[0]] + s[1..];
      }
    }
  }

  /** A separator between two strings separates their pieces. */
  lemma {:induction false} SplitAround(a: string, b: string)
    ensures Split(a + "/" + b) == Split(a) + Split(b)
    decreases |a|
  {
    if a == [] {
      assert a + "/" + b == "/" + b;
      assert ("/" + b)[1..] == b;
    } else {
      assert (a + "/" + b)[1..] == a[1..] + "/" + b;
      SplitAround(a[1..], b);
    }
  }

  /** A string without slashes is a single piece. */
  lemma {:induction false} SplitSingle(x: string)
    requires '/' !in x
    ensures Split(x) == [x]
    decreases |x|
  {
    if x != [] {
      SplitSingle(x[1..]);
      assert x == [x[0]] + x[1..];
    }
  }

  /** Joining slash-free pieces and splitting again gives the pieces back. */
  lemma {:induction false} SplitJoin(parts: seq<string>)
    requires |parts| >= 1
    requires forall i :: 0 <= i < |parts| ==> '/' !in parts[i]
    ensures Split(Join(parts)) == parts
  {
    if |parts| == 1 {
      SplitSingle(parts[0]);
    } else {
      SplitJoin(parts[1..]);
      SplitAround(parts[0], Join(parts[1..]));
      SplitSingle(parts[0]);
      assert parts == [parts[0]] + parts[1..];
    }
  }

  /** Filtering a concatenation filters each part. */
  lemma {:induction false} NonEmptyAppend(a: seq<string>, b: seq<string>)
    ensures NonEmpty(a + b) == NonEmpty(a) + NonEmpty(b)
  {
    if a == [] {
      assert a + b == b;
    } else {
      assert (a + b)[1..] == a[1..] + b;
      NonEmptyAppend(a[1..], b);
    }
  }

  /** Pieces that are all non-empty survive the filter unchanged. */
  lemma {:induction false} NonEmptyKeeps(parts: seq<string>)
    requires forall i :: 0 <= i < |parts| ==> parts[i] != ""
    ensures NonEmpty(parts) == parts
  {
    if parts != [] {
      NonEmptyKeeps(parts[1..]);
    }
  }

  /** Every segment of a pathname is non-empty and slash-free. */
  lemma SegmentsAreSegments(p: string)
    ensures forall i :: 0 <= i < |Segments(p)| ==> IsSegment(Segments(p)[i])
  {
    var s := Segments(p);
    forall i | 0 <= i < |s| ensures IsSegment(s[i]) {
      assert s[i] in s;
      var j :| 0 <= j < |Split(p)| && Split(p)[j] == s[i];
    }
  }

  /** A trailing slash adds no segment. */
  lemma TrailingSlash(a: string)
    ensures Segments(a + "/") == Segments(a)
  {
    assert a + "/" == a + "/" + "";
    SplitAround(a, "");
    SplitSingle("");
    NonEmptyAppend(Split(a), [""]);
    assert NonEmpty([""]) == [];
    assert NonEmpty(Split(a)) + [] == NonEmpty(Split(a));
  }

  /** A leading slash adds no segment. */
  lemma LeadingSlash(b: string)
    ensures Segments("/" + b) == Segments(b)
  {
    assert "/" + b == "" + "/" + b;
    SplitAround("", b);
    SplitSingle("");
    NonEmptyAppend([""], Split(b));
    assert NonEmpty([""]) == [];
  }

  /** The absolute path made of some segments has exactly those segments. */
  lemma SegmentsOfPath(segs: seq<string>)
    requires forall i :: 0 <= i < |segs| ==> IsSegment(segs[i])
    ensures Segments("/" + Join(segs)) == segs
  {
    LeadingSlash(Join(segs));
    if segs == [] {
      SplitSingle("");
      assert NonEmpty([""]) == [];
    } else {
      SplitJoin(segs);
      NonEmptyKeeps(segs);
    }
  }

  lemma {:induction false} JoinSnoc(parts: seq<string>, x: string)
    requires |parts| >= 1
    ensures Join(parts + [x]) == Join(parts) + "/" + x
    decreases |parts|
  {
    var q := parts + [x];
    assert q[0] == parts[0] && q[1..] == parts[1..] + [x];
    if |parts| == 1 {
      assert q[1..] == [x];
    } else {
      JoinSnoc(parts[1..], x);
      assert Join(q) == parts[0] + "/" + Join(parts[1..] + [x]);
    }
  }
}
