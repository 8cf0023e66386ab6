/**
 * The server's comment service over an in-memory comment table: creating a
 * comment under an existing parent, the permission-checked cascade delete,
 * loading reply trees, and the de-duplicated list of a user's comments.
 *
 * A row's `pid` names its parent. The table is created through auto-increment
 * ids and parents must exist when a reply is created, so every parent id is
 * smaller than its child's id; that is what makes the reply relation a tree
 * whose depth the recursions below can measure.
 */
module CommentService {
  import opened Wrappers

  /** The administrator role id (`appTypes.Admin`). */
  const AdminRole: int := 2

  datatype Comment = Comment(id: nat, articleId: string, userUuid: string, content: string, pid: Option<nat>)

  type Table = seq<Comment>

  /** Every reply's parent id is below its own id. */
  predicate ParentsBefore(t: Table)
  {
    forall i :: 0 <= i < |t| && t[i].pid.Some? ==> t[i].pid.value < t[i].id
  }

  /** One more than the largest id in the table. */
  function Bound(t: Table): (b: nat)
    ensures forall i :: 0 <= i < |t| ==> t[i].id < b
  {
    if t == [] then 0
    else
      var b := Bound(t[1..]);
      assert forall i :: 1 <= i < |t| ==> t[i] == t[1..][i - 1];
      if t[0].id + 1 > b then t[0].id + 1 else b
  }

  lemma {:induction false} BoundLeast(t: Table, b: nat)
    requires forall r :: r in t ==> r.id < b
    ensures Bound(t) <= b
  {
    if t != [] {
      assert forall r :: r in t[1..] ==> r in t;
      BoundLeast(t[1..], b);
    }
  }

  /** How far an id is from the top of the table; replies are strictly closer. */
  function Height(t: Table, x: nat): nat
  {
    if x < Bound(t) then Bound(t) - x else 0
  }

  /** The rows whose parent is `x`, in table order (`Where("p_id = ?", x)`). */
  function ChildRows(t: Table, x: nat): (rs: seq<Comment>)
    ensures forall r :: r in rs <==> r in t && r.pid == Some(x)
    ensures ParentsBefore(t) ==> forall r :: r in rs ==> x < r.id < Bound(t)
  {
    if t == [] then []
    else
      assert forall r :: r in t[1..] ==> r in t;
      assert forall r :: r in t ==> r == t[0] || r in t[1..];
      assert forall i :: 1 <= i < |t| ==> t[i] == t[1..][i - 1];
      var rest := ChildRows(t[1..], x);
      assert ParentsBefore(t) ==> forall r :: r in t ==> r.id < Bound(t) && (r.pid.Some? ==> r.pid.value < r.id);
      if t[0].pid == Some(x) then [t[0]] + rest else rest
  }

  /** The ids of those rows (`Pluck("id")`). */
  function Children(t: Table, x: nat): (cs: seq<nat>)
    ensures |cs| == |ChildRows(t, x)|
    ensures forall i :: 0 <= i < |cs| ==> cs[i] == ChildRows(t, x)[i].id
    ensures forall c :: c in cs <==> exists r :: r in t && r.pid == Some(x) && r.id == c
    ensures ParentsBefore(t) ==> forall c :: c in cs ==> x < c < Bound(t)
    ensures ParentsBefore(t) ==> forall i :: 0 <= i < |cs| ==> x < cs[i] < Bound(t)
  {
    var rs := ChildRows(t, x);
    var cs := seq(|rs|, i requires 0 <= i < |rs| => rs[i].id);
    IdsOfRows(t, x, rs, cs);
    cs
  }

  lemma IdsOfRows(t: Table, x: nat, rs: seq<Comment>, cs: seq<nat>)
    requires forall r :: r in rs <==> r in t && r.pid == Some(x)
    requires |cs| == |rs| && forall i :: 0 <= i < |rs| ==> cs[i] == rs[i].id
    ensures forall c :: c in cs <==> exists r :: r in t && r.pid == Some(x) && r.id == c
  {
    forall c | c in cs ensures exists r :: r in t && r.pid == Some(x) && r.id == c {
      var i :| 0 <= i < |cs| && cs[i] == c;
      assert rs[i] in rs;
    }
    forall r | r in t && r.pid == Some(x) ensures r.id in cs {
      var i :| 0 <= i < |rs| && rs[i] == r;
      assert cs[i] == r.id;
    }
  }

  /** Every id below `x`: its replies, their replies, and so on (not `x` itself). */
  function Desc(t: Table, x: nat): set<nat>
    requires ParentsBefore(t)
    decreases Height(t, x), |Children(t, x)| + 1
  {
    DescList(t, x, Children(t, x))
  }

  /** The replies listed in `cs` together with everything below them. */
  function DescList(t: Table, x: nat, cs: seq<nat>): set<nat>
    requires ParentsBefore(t)
    requires forall i :: 0 <= i < |cs| ==> x < cs[i] < Bound(t)
    decreases Height(t, x), |cs|
  {
    if cs == [] then {}
    else
      var last := cs[|cs| - 1];
      assert cs == cs[..|cs| - 1] + [last];
      DescList(t, x, cs[..|cs| - 1]) + {last} + Desc(t, last)
  }

  lemma {:induction false} DescListMember(t: Table, x: nat, cs: seq<nat>, d: nat)
    requires ParentsBefore(t)
    requires forall i :: 0 <= i < |cs| ==> x < cs[i] < Bound(t)
    ensures d in DescList(t, x, cs) <==> exists c :: c in cs && (d == c || d in Desc(t, c))
  {
    if d in DescList(t, x, cs) {
      var c := DescListWitness(t, x, cs, d);
    }
    if exists c :: c in cs && (d == c || d in Desc(t, c)) {
      var c :| c in cs && (d == c || d in Desc(t, c));
      DescListHas(t, x, cs, c, d);
    }
  }

  lemma {:induction false} DescListWitness(t: Table, x: nat, cs: seq<nat>, d: nat) returns (c: nat)
    requires ParentsBefore(t)
    requires forall i :: 0 <= i < |cs| ==> x < cs[i] < Bound(t)
    requires d in DescList(t, x, cs)
    ensures c in cs && (d == c || d in Desc(t, c))
    decreases |cs|
  {
    var init, last := cs[..|cs| - 1], cs[|cs| - 1];
    if d in DescList(t, x, init) {
      c := DescListWitness(t, x, init, d);
      assert c in cs by {
        var k :| 0 <= k < |init| && init[k] == c;
        assert cs[k] == c;
      }
    } else {
      c := last;
    }
  }

  lemma {:induction false} DescListHas(t: Table, x: nat, cs: seq<nat>, c: nat, d: nat)
    requires ParentsBefore(t)
    requires forall i :: 0 <= i < |cs| ==> x < cs[i] < Bound(t)
    requires c in cs && (d == c || d in Desc(t, c))
    ensures d in DescList(t, x, cs)
    decreases |cs|
  {
    var init, last := cs[..|cs| - 1], cs[|cs| - 1];
    if c != last {
      assert c in init by {
        var k :| 0 <= k < |cs| && cs[k] == c;
        assert k < |cs| - 1 && init[k] == c;
      }
      DescListHas(t, x, init, c, d);
    }
  }

  /** Below `x` means a reply of `x` or below one. */
  lemma DescUnfold(t: Table, x: nat, d: nat)
    requires ParentsBefore(t)
    ensures d in Desc(t, x) <==> exists c :: c in Children(t, x) && (d == c || d in Desc(t, c))
  {
    DescListMember(t, x, Children(t, x), d);
  }

  /** Everything below `x` has a larger id, so a comment is never below itself. */
  lemma {:induction false} DescAbove(t: Table, x: nat, d: nat)
    requires ParentsBefore(t) && d in Desc(t, x)
    ensures x < d < Bound(t)
    decreases Height(t, x)
  {
    var c := DescWitness(t, x, d);
    if d != c {
      DescAbove(t, c, d);
    }
  }

  /** Below-below is below. */
  lemma {:induction false} DescTrans(t: Table, x: nat, y: nat, z: nat)
    requires ParentsBefore(t) && y in Desc(t, x) && z in Desc(t, y)
    ensures z in Desc(t, x)
    decreases Height(t, x)
  {
    var c := DescWitness(t, x, y);
    if y != c {
      DescTrans(t, c, y, z);
    }
    DescHas(t, x, c, z);
  }

  /** A set of ids that holds everything below each of its members. */
  predicate DownClosed(t: Table, u: set<nat>)
    requires ParentsBefore(t)
  {
    forall a, d :: a in u && d in Desc(t, a) ==> d in u
  }

  lemma SubtreeClosed(t: Table, x: nat)
    requires ParentsBefore(t)
    ensures DownClosed(t, {x} + Desc(t, x))
  {
    forall a, d | a in {x} + Desc(t, x) && d in Desc(t, a) ensures d in {x} + Desc(t, x) {
      if a != x {
        DescTrans(t, x, a, d);
      }
    }
  }

  lemma UnionClosed(t: Table, a: set<nat>, b: set<nat>)
    requires ParentsBefore(t) && DownClosed(t, a) && DownClosed(t, b)
    ensures DownClosed(t, a + b)
  {
  }

  lemma {:induction false} DescListClosed(t: Table, x: nat, cs: seq<nat>)
    requires ParentsBefore(t)
    requires forall i :: 0 <= i < |cs| ==> x < cs[i] < Bound(t)
    ensures DownClosed(t, DescList(t, x, cs))
    decreases |cs|
  {
    if cs != [] {
      var last := cs[|cs| - 1];
      assert cs == cs[..|cs| - 1] + [last];
      DescListClosed(t, x, cs[..|cs| - 1]);
      SubtreeClosed(t, last);
      assert DescList(t, x, cs) == DescList(t, x, cs[..|cs| - 1]) + ({last} + Desc(t, last));
      UnionClosed(t, DescList(t, x, cs[..|cs| - 1]), {last} + Desc(t, last));
    }
  }

  /** The table without the rows whose id is in `u`, order kept (the deletes). */
  function WithoutIds(t: Table, u: set<nat>): (r: Table)
    ensures forall c :: c in r <==> c in t && c.id !in u
    ensures |r| <= |t|
    ensures ParentsBefore(t) ==> ParentsBefore(r)
  {
    if t == [] then []
    else
      assert forall c :: c in t[1..] ==> c in t;
      assert forall c :: c in t ==> c == t[0] || c in t[1..];
      assert forall i :: 1 <= i < |t| ==> t[i] == t[1..][i - 1];
      var rest := WithoutIds(t[1..], u);
      if t[0].id in u then rest else [t[0]] + rest
  }

  lemma {:induction false} WithoutTwice(t: Table, a: set<nat>, b: set<nat>)
    ensures WithoutIds(WithoutIds(t, a), b) == WithoutIds(t, a + b)
  {
    if t != [] {
      WithoutTwice(t[1..], a, b);
    }
  }

  lemma WithoutLowersBound(t: Table, u: set<nat>)
    ensures Bound(WithoutIds(t, u)) <= Bound(t)
  {
    var r := WithoutIds(t, u);
    forall c | c in r ensures c.id < Bound(t) {
      var i :| 0 <= i < |t| && t[i] == c;
    }
    BoundLeast(r, Bound(t));
  }

  /** The replies of `x` that survive a delete are those outside the deleted set. */
  lemma ChildrenWithout(t: Table, u: set<nat>, x: nat)
    ensures forall c :: c in Children(WithoutIds(t, u), x) <==> c in Children(t, x) && c !in u
  {
    var t' := WithoutIds(t, u);
    forall c ensures c in Children(t', x) <==> c in Children(t, x) && c !in u {
      if c in Children(t', x) {
        var r :| r in t' && r.pid == Some(x) && r.id == c;
        assert r in t;
      }
      if c in Children(t, x) && c !in u {
        var r :| r in t && r.pid == Some(x) && r.id == c;
        assert r in t';
      }
    }
  }

  /**
   * Deleting a down-closed set of ids removes exactly those ids from below
   * every comment; the rest of each reply tree stays.
   */
  lemma {:induction false} DescWithout(t: Table, u: set<nat>, x: nat)
    requires ParentsBefore(t) && DownClosed(t, u)
    ensures Desc(WithoutIds(t, u), x) == Desc(t, x) - u
    decreases Height(t, x)
  {
    var t' := WithoutIds(t, u);
    forall c | c in Children(t, x) ensures Desc(t', c) == Desc(t, c) - u {
      DescWithout(t, u, c);
    }
    ChildrenWithout(t, u, x);
    forall d ensures d in Desc(t', x) <==> d in Desc(t, x) && d !in u {
      DescWithoutPoint(t, u, x, d);
    }
  }

  /** One id at a time, given the result for the replies of `x`. */
  lemma DescWithoutPoint(t: Table, u: set<nat>, x: nat, d: nat)
    requires ParentsBefore(t) && DownClosed(t, u)
    requires forall c :: c in Children(t, x) ==> Desc(WithoutIds(t, u), c) == Desc(t, c) - u
    requires forall c :: c in Children(WithoutIds(t, u), x) <==> c in Children(t, x) && c !in u
    ensures d in Desc(WithoutIds(t, u), x) <==> d in Desc(t, x) && d !in u
  {
    var t' := WithoutIds(t, u);
    if d in Desc(t', x) {
      var c := DescWitness(t', x, d);
      DescHas(t, x, c, d);
    }
    if d in Desc(t, x) && d !in u {
      var c := DescWitness(t, x, d);
      assert c !in u;
      DescHas(t', x, c, d);
    }
  }

  /** A reply of `x` that `d` is, or is below. */
  lemma DescWitness(t: Table, x: nat, d: nat) returns (c: nat)
    requires ParentsBefore(t) && d in Desc(t, x)
    ensures c in Children(t, x) && (d == c || d in Desc(t, c))
  {
    c := DescListWitness(t, x, Children(t, x), d);
  }

  /** A reply of `x` and everything below it are below `x`. */
  lemma DescHas(t: Table, x: nat, c: nat, d: nat)
    requires ParentsBefore(t) && c in Children(t, x) && (d == c || d in Desc(t, c))
    ensures d in Desc(t, x)
  {
    DescListHas(t, x, Children(t, x), c, d);
  }

  /** `Take(&comment, id)`: the row with that id, if any. */
  function Take(t: Table, id: nat): (r: Option<Comment>)
    ensures r.Some? ==> r.value in t && r.value.id == id
    ensures r.None? <==> forall c :: c in t ==> c.id != id
  {
    if t == [] then None
    else if t[0].id == id then Some(t[0])
    else
      assert forall c :: c in t ==> c == t[0] || c in t[1..];
      Take(t[1..], id)
  }

  datatype DeleteError = NotFound(id: nat) | NoPermission(id: nat)

  /** May the caller delete this comment: its author, or an administrator. */
  predicate MayDelete(c: Comment, userUuid: string, roleId: int)
  {
    userUuid == c.userUuid || roleId == AdminRole
  }

  /**
   * The delete transaction, one id after another: each id must still exist
   * and be deletable by the caller, and takes everything below it along.
   * The first failure ends it with an error.
   */
  function DeleteAll(t: Table, ids: seq<nat>, userUuid: string, roleId: int): Result<Table, DeleteError>
    requires ParentsBefore(t)
    decreases |ids|
  {
    if ids == [] then Ok(t)
    else
      match Take(t, ids[0])
      case None => Err(NotFound(ids[0]))
      case Some(c) =>
        if !MayDelete(c, userUuid, roleId) then Err(NoPermission(ids[0]))
        else DeleteAll(WithoutIds(t, Desc(t, ids[0]) + {ids[0]}), ids[1..], userUuid, roleId)
  }

  /** One step of the transaction, from the `k`-th id on. */
  lemma DeleteAllAt(t: Table, ids: seq<nat>, k: nat, userUuid: string, roleId: int)
    requires ParentsBefore(t) && k < |ids|
    ensures var i := ids[k];
      DeleteAll(t, ids[k..], userUuid, roleId) ==
        match Take(t, i)
        case None => Err(NotFound(i))
        case Some(c) =>
          if !MayDelete(c, userUuid, roleId) then Err(NoPermission(i))
          else DeleteAll(WithoutIds(t, Desc(t, i) + {i}), ids[k + 1..], userUuid, roleId)
  {
    assert ids[k..][0] == ids[k];
    assert ids[k..][1..] == ids[k + 1..];
  }

  /** Each id with everything below it. */
  function Closure(t: Table, ids: seq<nat>): set<nat>
    requires ParentsBefore(t)
  {
    if ids == [] then {} else {ids[0]} + Desc(t, ids[0]) + Closure(t, ids[1..])
  }

  lemma {:induction false} ClosureClosed(t: Table, ids: seq<nat>)
    requires ParentsBefore(t)
    ensures DownClosed(t, Closure(t, ids))
  {
    if ids != [] {
      SubtreeClosed(t, ids[0]);
      ClosureClosed(t, ids[1..]);
      UnionClosed(t, {ids[0]} + Desc(t, ids[0]), Closure(t, ids[1..]));
    }
  }

  lemma {:induction false} DeleteAllFrom(t: Table, u: set<nat>, ids: seq<nat>, userUuid: string, roleId: int)
    requires ParentsBefore(t) && DownClosed(t, u)
    requires DeleteAll(WithoutIds(t, u), ids, userUuid, roleId).Ok?
    ensures DeleteAll(WithoutIds(t, u), ids, userUuid, roleId).value == WithoutIds(t, u + Closure(t, ids))
    decreases |ids|
  {
    var t' := WithoutIds(t, u);
    if ids == [] {
      assert u + Closure(t, ids) == u;
    } else {
      var i := ids[0];
      var v := u + ({i} + Desc(t, i));
      assert DeleteAll(t', ids, userUuid, roleId) == DeleteAll(WithoutIds(t', Desc(t', i) + {i}), ids[1..], userUuid, roleId);
      DeleteOneMore(t, u, i);
      DeleteAllFrom(t, v, ids[1..], userUuid, roleId);
      ClosureCons(t, u, ids);
    }
  }

  lemma ClosureCons(t: Table, u: set<nat>, ids: seq<nat>)
    requires ParentsBefore(t) && ids != []
    ensures u + ({ids[0]} + Desc(t, ids[0])) + Closure(t, ids[1..]) == u + Closure(t, ids)
  {
  }

  /** After a down-closed set is gone, deleting `i` with what is now below it removes its whole original subtree. */
  lemma DeleteOneMore(t: Table, u: set<nat>, i: nat)
    requires ParentsBefore(t) && DownClosed(t, u)
    ensures var t' := WithoutIds(t, u);
      && WithoutIds(t', Desc(t', i) + {i}) == WithoutIds(t, u + ({i} + Desc(t, i)))
      && DownClosed(t, u + ({i} + Desc(t, i)))
  {
    var t' := WithoutIds(t, u);
    DescWithout(t, u, i);
    WithoutTwice(t, u, Desc(t', i) + {i});
    assert u + (Desc(t', i) + {i}) == u + ({i} + Desc(t, i));
    SubtreeClosed(t, i);
    UnionClosed(t, u, {i} + Desc(t, i));
  }

  /**
   * A successful delete request removes exactly the named comments and
   * everything below them, as if all were deleted at once from the table
   * the request started with.
   */
  lemma DeleteAllRemovesClosure(t: Table, ids: seq<nat>, userUuid: string, roleId: int)
    requires ParentsBefore(t)
    ensures var d := DeleteAll(t, ids, userUuid, roleId);
      d.Ok? ==> d.value == WithoutIds(t, Closure(t, ids))
  {
    WithoutNothing(t);
    if DeleteAll(t, ids, userUuid, roleId).Ok? {
      DeleteAllFrom(t, {}, ids, userUuid, roleId);
      assert {} + Closure(t, ids) == Closure(t, ids);
    }
  }

  lemma {:induction false} WithoutNothing(t: Table)
    ensures WithoutIds(t, {}) == t
  {
    if t != [] {
      WithoutNothing(t[1..]);
    }
  }

  /** A successful request by a non-administrator only named comments of the caller's own. */
  lemma {:induction false} DeleteAllAuthorised(t: Table, ids: seq<nat>, userUuid: string, roleId: int)
    requires ParentsBefore(t) && roleId != AdminRole
    requires DeleteAll(t, ids, userUuid, roleId).Ok?
    ensures forall k :: 0 <= k < |ids| ==> exists c :: c in t && c.id == ids[k] && c.userUuid == userUuid
    decreases |ids|
  {
    if ids != [] {
      var t' := WithoutIds(t, Desc(t, ids[0]) + {ids[0]});
      DeleteAllAuthorised(t', ids[1..], userUuid, roleId);
      forall k | 0 <= k < |ids| ensures exists c :: c in t && c.id == ids[k] && c.userUuid == userUuid {
        if k == 0 {
          assert Take(t, ids[0]).value in t;
        } else {
          assert ids[k] == ids[1..][k - 1];
          var c :| c in t' && c.id == ids[1..][k - 1] && c.userUuid == userUuid;
          assert c in t;
        }
      }
    }
  }

  /**
   * A request naming a comment and then one of its replies fails: the reply
   * went with its parent, so the second lookup finds nothing, and the
   * transaction deletes nothing.
   */
  lemma ParentThenReplyFails(t: Table, p: nat, c: nat, userUuid: string, roleId: int)
    requires ParentsBefore(t) && c in Desc(t, p)
    requires Take(t, p).Some? && MayDelete(Take(t, p).value, userUuid, roleId)
    ensures DeleteAll(t, [p, c], userUuid, roleId) == Err(NotFound(c))
  {
    var t' := WithoutIds(t, Desc(t, p) + {p});
    assert Take(t', c).None?;
    assert [p, c][1..] == [c];
  }

  /** The replies before `cs[k]`, each with everything below it. */
  lemma DeleteStepHeight(t0: Table, id: nat, cs: seq<nat>, k: nat)
    requires ParentsBefore(t0) && cs == Children(t0, id) && k < |cs|
    ensures Height(WithoutIds(t0, DescList(t0, id, cs[..k])), cs[k]) < Height(t0, id)
  {
    WithoutLowersBound(t0, DescList(t0, id, cs[..k]));
  }

  lemma DescListSnoc(t0: Table, id: nat, cs: seq<nat>, k: nat)
    requires ParentsBefore(t0) && cs == Children(t0, id) && k < |cs|
    ensures DescList(t0, id, cs[..k + 1]) == DescList(t0, id, cs[..k]) + {cs[k]} + Desc(t0, cs[k])
  {
    assert cs[..k + 1][..k] == cs[..k];
  }

  /**
   * One turn of the cascade: with the replies before `cs[k]` already gone
   * (each with everything below it), deleting `cs[k]` and what is below it
   * in the current table extends the deleted set by one more subtree.
   */
  lemma DeleteStep(t0: Table, id: nat, cs: seq<nat>, k: nat)
    requires ParentsBefore(t0) && cs == Children(t0, id) && k < |cs|
    ensures var t := WithoutIds(t0, DescList(t0, id, cs[..k]));
      WithoutIds(t, Desc(t, cs[k]) + {cs[k]}) == WithoutIds(t0, DescList(t0, id, cs[..k + 1]))
  {
    var c := cs[k];
    var u := DescList(t0, id, cs[..k]);
    var t := WithoutIds(t0, u);
    DescListClosed(t0, id, cs[..k]);
    DescWithout(t0, u, c);
    var dc := Desc(t0, c);
    assert Desc(t, c) + {c} == dc - u + {c};
    WithoutTwice(t0, u, dc - u + {c});
    DescListSnoc(t0, id, cs, k);
    assert u + (dc - u + {c}) == u + {c} + dc;
  }

  /** A comment with its replies loaded (`Children`). */
  datatype Node = Node(comment: Comment, children: seq<Node>)

  /** `loadChildren(&c)`: the replies of `c`, in table order, each with its own replies loaded. */
  function Load(t: Table, c: Comment): (n: Node)
    requires ParentsBefore(t)
    ensures n.comment == c && |n.children| == |ChildRows(t, c.id)|
    ensures forall i :: 0 <= i < |n.children| ==> n.children[i].comment == ChildRows(t, c.id)[i]
    decreases Height(t, c.id)
  {
    var kids := ChildRows(t, c.id);
    assert forall i :: 0 <= i < |kids| ==> kids[i] in kids;
    Node(c, seq(|kids|, i requires 0 <= i < |kids| => Load(t, kids[i])))
  }

  /** The ids strictly below a loaded comment. */
  function SubtreeIds(n: Node): set<nat>
    decreases n, |n.children| + 1
  {
    KidsIds(n, |n.children|)
  }

  /** The ids of the first `i` replies of `n` and of everything below them. */
  function KidsIds(n: Node, i: nat): set<nat>
    requires i <= |n.children|
    decreases n, i
  {
    if i == 0 then {}
    else KidsIds(n, i - 1) + {n.children[i - 1].comment.id} + SubtreeIds(n.children[i - 1])
  }

  /** A loaded tree holds exactly the comments below its root in the table. */
  lemma {:induction false} LoadDesc(t: Table, c: Comment)
    requires ParentsBefore(t)
    ensures SubtreeIds(Load(t, c)) == Desc(t, c.id)
    decreases Height(t, c.id), 1, 0
  {
    AllKids(t, c);
    LoadKids(t, c, |ChildRows(t, c.id)|);
  }

  /** Both sides of `LoadDesc` are their prefix versions taken over all the replies. */
  lemma AllKids(t: Table, c: Comment)
    requires ParentsBefore(t)
    ensures var n := |ChildRows(t, c.id)|;
      && SubtreeIds(Load(t, c)) == KidsIds(Load(t, c), n)
      && Desc(t, c.id) == DescList(t, c.id, Children(t, c.id)[..n])
  {
    var cs := Children(t, c.id);
    assert cs[..|cs|] == cs;
  }

  lemma DescListPrefix(t: Table, x: nat, cs: seq<nat>, i: nat)
    requires ParentsBefore(t) && 0 < i <= |cs|
    requires forall k :: 0 <= k < |cs| ==> x < cs[k] < Bound(t)
    ensures DescList(t, x, cs[..i]) == DescList(t, x, cs[..i - 1]) + {cs[i - 1]} + Desc(t, cs[i - 1])
  {
    assert cs[..i][..i - 1] == cs[..i - 1];
  }

  lemma {:induction false} LoadKids(t: Table, c: Comment, i: nat)
    requires ParentsBefore(t) && i <= |ChildRows(t, c.id)|
    ensures KidsIds(Load(t, c), i) == DescList(t, c.id, Children(t, c.id)[..i])
    decreases Height(t, c.id), 0, i
  {
    if i == 0 {
      NoKids(t, c);
    } else {
      var kid := KidBelow(t, c, i);
      LoadKids(t, c, i - 1);
      LoadDesc(t, kid);
      KidStep(t, c, i);
    }
  }

  lemma NoKids(t: Table, c: Comment)
    requires ParentsBefore(t)
    ensures KidsIds(Load(t, c), 0) == DescList(t, c.id, Children(t, c.id)[..0])
  {
    assert Children(t, c.id)[..0] == [];
  }

  /** The `i`-th reply, which is closer to the top of the table. */
  lemma KidBelow(t: Table, c: Comment, i: nat) returns (kid: Comment)
    requires ParentsBefore(t) && 0 < i <= |ChildRows(t, c.id)|
    ensures kid == ChildRows(t, c.id)[i - 1]
    ensures Height(t, kid.id) < Height(t, c.id)
  {
    kid := ChildRows(t, c.id)[i - 1];
    assert kid in ChildRows(t, c.id);
  }

  /** What the `i`-th loaded reply adds, on the tree side and on the table side. */
  lemma KidStep(t: Table, c: Comment, i: nat)
    requires ParentsBefore(t) && 0 < i <= |ChildRows(t, c.id)|
    requires KidsIds(Load(t, c), i - 1) == DescList(t, c.id, Children(t, c.id)[..i - 1])
    requires SubtreeIds(Load(t, ChildRows(t, c.id)[i - 1])) == Desc(t, ChildRows(t, c.id)[i - 1].id)
    ensures KidsIds(Load(t, c), i) == DescList(t, c.id, Children(t, c.id)[..i])
  {
    KidLoaded(t, c, i);
    KidDesc(t, c, i);
  }

  lemma KidLoaded(t: Table, c: Comment, i: nat)
    requires ParentsBefore(t) && 0 < i <= |ChildRows(t, c.id)|
    ensures var kid := ChildRows(t, c.id)[i - 1];
      KidsIds(Load(t, c), i) == KidsIds(Load(t, c), i - 1) + {kid.id} + SubtreeIds(Load(t, kid))
  {
    var kid := ChildRows(t, c.id)[i - 1];
    assert kid in ChildRows(t, c.id);
    assert Load(t, c).children[i - 1] == Load(t, kid);
  }

  lemma KidDesc(t: Table, c: Comment, i: nat)
    requires ParentsBefore(t) && 0 < i <= |ChildRows(t, c.id)|
    ensures var kid := ChildRows(t, c.id)[i - 1];
      DescList(t, c.id, Children(t, c.id)[..i])
      == DescList(t, c.id, Children(t, c.id)[..i - 1]) + {kid.id} + Desc(t, kid.id)
  {
    DescListPrefix(t, c.id, Children(t, c.id), i);
  }

  /**
   * `traverseChildren(n, idMap)`: every reply below `n` goes into the id
   * set, depth first. The set is threaded through rather than shared.
   */
  method TraverseChildren(n: Node, idMap: set<nat>) returns (m: set<nat>)
    ensures m == idMap + SubtreeIds(n)
    decreases n
  {
    m := idMap;
    for i := 0 to |n.children|
      invariant m == idMap + KidsIds(n, i)
    {
      var child := n.children[i];
      m := m + {child.comment.id};
      m := TraverseChildren(child, m);
    }
  }

  /** The ids below any of the given trees. */
  function AllSubtreeIds(ns: seq<Node>): set<nat>
  {
    if ns == [] then {} else AllSubtreeIds(ns[..|ns| - 1]) + SubtreeIds(ns[|ns| - 1])
  }

  /** `findChildCommentsIDByRootCommentUserUUID`: the ids below any of the comments. */
  method FindChildCommentIds(comments: seq<Node>) returns (idMap: set<nat>)
    ensures idMap == AllSubtreeIds(comments)
  {
    idMap := {};
    for i := 0 to |comments|
      invariant idMap == AllSubtreeIds(comments[..i])
    {
      idMap := TraverseChildren(comments[i], idMap);
      assert comments[..i + 1][..i] == comments[..i];
    }
    assert comments[..|comments|] == comments;
  }

  /** The ids below any comment of `cs` in the table. */
  function DescAll(t: Table, cs: seq<Comment>): set<nat>
    requires ParentsBefore(t)
  {
    if cs == [] then {} else DescAll(t, cs[..|cs| - 1]) + Desc(t, cs[|cs| - 1].id)
  }

  function LoadAll(t: Table, cs: seq<Comment>): (ns: seq<Node>)
    requires ParentsBefore(t)
    ensures |ns| == |cs| && forall i :: 0 <= i < |cs| ==> ns[i] == Load(t, cs[i])
  {
    seq(|cs|, i requires 0 <= i < |cs| => Load(t, cs[i]))
  }

  lemma LoadAllSnoc(t: Table, cs: seq<Comment>, i: nat)
    requires ParentsBefore(t) && i < |cs|
    ensures LoadAll(t, cs[..i + 1]) == LoadAll(t, cs[..i]) + [Load(t, cs[i])]
  {
    var a, b := LoadAll(t, cs[..i + 1]), LoadAll(t, cs[..i]);
    forall k | 0 <= k < i + 1
      ensures a[k] == (b + [Load(t, cs[i])])[k]
    {
      if k < i {
        assert cs[..i + 1][k] == cs[..i][k];
      }
    }
  }

  lemma KeepStep(t: Table, raw: seq<Comment>, d: set<nat>, i: nat)
    requires ParentsBefore(t) && i < |raw|
    ensures LoadAll(t, KeepOutside(raw[..i + 1], d))
         == LoadAll(t, KeepOutside(raw[..i], d)) + (if raw[i].id in d then [] else [Load(t, raw[i])])
  {
    assert raw[..i + 1][..i] == raw[..i];
    var k := KeepOutside(raw[..i], d);
    if raw[i].id !in d {
      assert LoadAll(t, k + [raw[i]]) == LoadAll(t, k) + [Load(t, raw[i])];
    }
  }

  lemma {:induction false} LoadAllDesc(t: Table, cs: seq<Comment>)
    requires ParentsBefore(t)
    ensures AllSubtreeIds(LoadAll(t, cs)) == DescAll(t, cs)
  {
    if cs != [] {
      var init := cs[..|cs| - 1];
      LoadAllDesc(t, init);
      assert LoadAll(t, cs)[..|cs| - 1] == LoadAll(t, init);
      LoadDesc(t, cs[|cs| - 1]);
    }
  }

  lemma {:induction false} DescAllMember(t: Table, cs: seq<Comment>, d: nat)
    requires ParentsBefore(t)
    ensures d in DescAll(t, cs) <==> exists o :: o in cs && d in Desc(t, o.id)
  {
    if cs != [] {
      var init := cs[..|cs| - 1];
      assert cs == init + [cs[|cs| - 1]];
      DescAllMember(t, init, d);
    }
  }

  /** The comments of `cs` whose id is outside `d`, order kept. */
  function KeepOutside(cs: seq<Comment>, d: set<nat>): (r: seq<Comment>)
    ensures forall c :: c in r <==> c in cs && c.id !in d
    ensures |r| <= |cs|
  {
    if cs == [] then []
    else
      var init, last := cs[..|cs| - 1], cs[|cs| - 1];
      assert cs == init + [last];
      KeepOutside(init, d) + (if last.id in d then [] else [last])
  }

  /** The rows of one user, in table order. */
  function UserRows(t: Table, userUuid: string): (r: seq<Comment>)
    ensures forall c :: c in r <==> c in t && c.userUuid == userUuid
  {
    if t == [] then []
    else
      assert forall c :: c in t ==> c == t[0] || c in t[1..];
      assert forall c :: c in t[1..] ==> c in t;
      (if t[0].userUuid == userUuid then [t[0]] else []) + UserRows(t[1..], userUuid)
  }

  /** The top-level rows of one article, in table order (`p_id IS NULL`). */
  function TopLevel(t: Table, articleId: string): (r: seq<Comment>)
    ensures forall c :: c in r <==> c in t && c.articleId == articleId && c.pid.None?
  {
    if t == [] then []
    else
      assert forall c :: c in t ==> c == t[0] || c in t[1..];
      assert forall c :: c in t[1..] ==> c in t;
      (if t[0].articleId == articleId && t[0].pid.None? then [t[0]] else []) + TopLevel(t[1..], articleId)
  }

  /**
   * The de-duplication `CommentInfo` performs: a user's comment stays
   * exactly when it is not below another comment of the same user.
   */
  lemma KeptIffNotBelowOwn(t: Table, userUuid: string, c: Comment)
    requires ParentsBefore(t)
    ensures var raw := UserRows(t, userUuid);
      c in KeepOutside(raw, DescAll(t, raw)) <==>
        c in t && c.userUuid == userUuid && forall o :: o in raw ==> c.id !in Desc(t, o.id)
  {
    DescAllMember(t, UserRows(t, userUuid), c.id);
  }

  lemma SelfNotBelow(t: Table, c: Comment)
    requires ParentsBefore(t)
    ensures c.id !in Desc(t, c.id)
  {
    if c.id in Desc(t, c.id) {
      DescAbove(t, c.id, c.id);
    }
  }

  datatype CreateRequest = CreateRequest(articleId: string, userUuid: string, content: string, pid: Option<nat>)

  datatype CreateError = ParentMissing

  /** The comment table, with the next auto-increment id. */
  class Store {
    var rows: Table
    var nextId: nat

    /** Replies come after their parents, and every id was handed out before `nextId`. */
    predicate Valid()
      reads this
    {
      0 < nextId && ParentsBefore(rows) && forall c :: c in rows ==> 0 < c.id < nextId
    }

    constructor (rows: Table, nextId: nat)
      requires 0 < nextId && ParentsBefore(rows) && forall c :: c in rows ==> 0 < c.id < nextId
      ensures Valid() && this.rows == rows && this.nextId == nextId
    {
      this.rows := rows;
      this.nextId := nextId;
    }

    /** `commentExists(id)`. */
    predicate Exists(id: nat)
      reads this
    {
      exists c :: c in rows && c.id == id
    }

    /**
     * `CommentCreate`: a positive parent id must name an existing comment,
     * otherwise nothing is created. A missing or zero parent id makes a
     * top-level comment.
     */
    method CommentCreate(req: CreateRequest) returns (err: Option<CreateError>)
      requires Valid()
      modifies this
      ensures Valid()
      ensures var hasParent := req.pid.Some? && req.pid.value > 0;
        if hasParent && !old(Exists(req.pid.value)) then
          err == Some(ParentMissing) && rows == old(rows) && nextId == old(nextId)
        else
          && err == None && nextId == old(nextId) + 1
          && rows == old(rows) + [Comment(old(nextId), req.articleId, req.userUuid, req.content,
                                          if hasParent then req.pid else None)]
    {
      var pid: Option<nat> := None;
      if req.pid.Some? && req.pid.value > 0 {
        if !Exists(req.pid.value) {
          return Some(ParentMissing);
        }
        pid := req.pid;
      }
      var c := Comment(nextId, req.articleId, req.userUuid, req.content, pid);
      rows := rows + [c];
      nextId := nextId + 1;
      err := None;
    }

    /**
     * `deleteCommentAndChildren(id)`: the replies of `id` are deleted one
     * by one, each with everything below it, and then `id` itself.
     */
    method DeleteCommentAndChildren(id: nat)
      requires ParentsBefore(rows)
      modifies this
      ensures ParentsBefore(rows)
      ensures rows == WithoutIds(old(rows), Desc(old(rows), id) + {id})
      ensures nextId == old(nextId)
      decreases Height(rows, id)
    {
      ghost var t0 := rows;
      var childIds := Children(rows, id);
      WithoutNothing(t0);
      var k := 0;
      while k < |childIds|
        invariant 0 <= k <= |childIds|
        invariant rows == WithoutIds(t0, DescList(t0, id, childIds[..k]))
        invariant ParentsBefore(rows) && nextId == old(nextId)
      {
        DeleteStepHeight(t0, id, childIds, k);
        DeleteStep(t0, id, childIds, k);
        DeleteCommentAndChildren(childIds[k]);
        k := k + 1;
      }
      assert childIds[..k] == childIds;
      rows := WithoutIds(rows, {id});
      WithoutTwice(t0, Desc(t0, id), {id});
    }

    /**
     * `CommentDelete`: an empty request changes nothing. Otherwise the ids
     * are handled in order inside one transaction; the first missing or
     * forbidden id rolls everything back.
     */
    method CommentDelete(ids: seq<nat>, userUuid: string, roleId: int) returns (err: Option<DeleteError>)
      requires Valid()
      modifies this
      ensures Valid() && nextId == old(nextId)
      ensures var d := DeleteAll(old(rows), ids, userUuid, roleId);
        && (d.Ok? ==> err == None && rows == d.value)
        && (d.Err? ==> err == Some(d.error) && rows == old(rows))
    {
      if |ids| == 0 {
        return None;
      }
      var saved := rows;
      var k := 0;
      while k < |ids|
        invariant 0 <= k <= |ids|
        invariant ParentsBefore(rows) && nextId == old(nextId)
        invariant forall c :: c in rows ==> 0 < c.id < nextId
        invariant DeleteAll(saved, ids, userUuid, roleId) == DeleteAll(rows, ids[k..], userUuid, roleId)
      {
        var id := ids[k];
        DeleteAllAt(rows, ids, k, userUuid, roleId);
        var found := Take(rows, id);
        if found.None? {
          rows := saved;
          return Some(NotFound(id));
        }
        if !MayDelete(found.value, userUuid, roleId) {
          rows := saved;
          return Some(NoPermission(id));
        }
        DeleteCommentAndChildren(id);
        k := k + 1;
      }
      err := None;
    }

    /**
     * `CommentInfoByArticleID`: the article's top-level comments, each with
     * its replies loaded. The per-comment loads run one after another here.
     */
    method CommentInfoByArticleID(articleId: string) returns (comments: seq<Node>)
      requires ParentsBefore(rows)
      ensures comments == LoadAll(rows, TopLevel(rows, articleId))
      ensures forall n :: n in comments ==> n.comment in rows && n.comment.articleId == articleId && n.comment.pid.None?
    {
      var top := TopLevel(rows, articleId);
      comments := [];
      for i := 0 to |top|
        invariant comments == LoadAll(rows, top[..i])
      {
        LoadAllSnoc(rows, top, i);
        comments := comments + [Load(rows, top[i])];
      }
      assert top[..|top|] == top;
    }

    /**
     * `CommentInfo`: the user's comments with their replies loaded, leaving
     * out every comment that already appears below another of them.
     */
    method CommentInfo(userUuid: string) returns (comments: seq<Node>)
      requires ParentsBefore(rows)
      ensures var raw := UserRows(rows, userUuid);
        comments == LoadAll(rows, KeepOutside(raw, DescAll(rows, raw)))
    {
      var raw := UserRows(rows, userUuid);
      var loaded: seq<Node> := [];
      for i := 0 to |raw|
        invariant loaded == LoadAll(rows, raw[..i])
      {
        LoadAllSnoc(rows, raw, i);
        loaded := loaded + [Load(rows, raw[i])];
      }
      assert raw[..|raw|] == raw;
      var idMap := FindChildCommentIds(loaded);
      LoadAllDesc(rows, raw);
      comments := [];
      for i := 0 to |loaded|
        invariant comments == LoadAll(rows, KeepOutside(raw[..i], idMap))
      {
        KeepStep(rows, raw, idMap, i);
        if loaded[i].comment.id !in idMap {
          comments := comments + [loaded[i]];
        }
      }
    }
  }
}
