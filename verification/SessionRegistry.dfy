/** `mcp_http_registry.go`: HTTP sessions by id, the oldest evicted when there are too many. */
module SessionRegistry {
  import opened Sequences
  import opened Text
  import opened Wrappers

  const MAX_SESSIONS: nat := 512

  /** `httpSession`, down to what tells sessions apart. */
  datatype Session = Session(id: string, caps: string)

  function Without(order: seq<string>, id: string): seq<string> {
    if order == [] then []
    else Without(order[..|order| - 1], id) + (if order[|order| - 1] == id then [] else [order[|order| - 1]])
  }

  lemma {:induction false} WithoutSkips(order: seq<string>, at: nat)
    requires at < |order| && NoDuplicates(order)
    ensures Without(order, order[at]) == order[..at] + order[at + 1..]
    decreases |order|
  {
    var n := |order| - 1;
    var init, last := order[..n], order[n];
    if at == n {
      WithoutAbsent(init, last);
    } else {
      WithoutSkips(init, at);
      assert init[..at] == order[..at] && order[at + 1..] == init[at + 1..] + [last];
    }
  }

  lemma {:induction false} WithoutAbsent(order: seq<string>, id: string)
    requires id !in order
    ensures Without(order, id) == order
  {
    if order != [] {
      WithoutAbsent(order[..|order| - 1], id);
    }
  }

  /** What the registry was asked to do. */
  datatype Request = Created(id: string) | Removed(id: string)

  /** One request. */
  function OrderStep(order: seq<string>, r: Request, max: nat): seq<string> {
    match r
    case Created(id) => (if max > 0 && |order| == max then order[1..] else order) + [id]
    case Removed(id) => if Blank(id) then order else Without(order, id)
  }

  /** The order after some requests. */
  function OrderAfter(requests: seq<Request>, max: nat): seq<string> {
    if requests == [] then []
    else
      OrderStep(OrderAfter(requests[..|requests| - 1], max), requests[|requests| - 1], max)
  }

  lemma OrderNext(requests: seq<Request>, r: Request, max: nat)
    ensures OrderAfter(requests + [r], max) == OrderStep(OrderAfter(requests, max), r, max)
  {
    assert (requests + [r])[..|requests|] == requests;
  }

  class Registry {
    var sessions: map<string, Session>
    var order: seq<string>
    const max: nat
    /** Everything asked of the registry so far. */
    ghost var log: seq<Request>

    /** `order` is what the requests so far leave. It lists exactly the keys of the map, each once, and never more than
        `max` of them. */
    ghost predicate Valid()
      reads this
    {
      && order == OrderAfter(log, max)
      && NoDuplicates(order) && Members(order) == sessions.Keys
      && (max > 0 ==> |order| <= max)
      && forall id <- sessions :: sessions[id].id == id
    }

    constructor (max: nat := MAX_SESSIONS)
      ensures Valid() && sessions == map[] && order == [] && this.max == max && log == []
    {
      sessions, order, this.max, log := map[], [], max, [];
    }

    /** `create`, for an id that no session has. */
    method Create(id: string, caps: string) returns (session: Session)
      requires Valid() && id !in sessions
      modifies this
      ensures Valid() && session == Session(id, caps) && log == old(log) + [Created(id)]
      ensures var full := max > 0 && |old(order)| == max;
        && order == (if full then old(order)[1..] else old(order)) + [id]
        && sessions == (if full then old(sessions) - {old(order)[0]} else old(sessions))[id := session]
    {
      session := Session(id, caps);
      OrderNext(log, Created(id), max);
      log := log + [Created(id)];
      Admitted(order, sessions, session, max > 0 && |order| >= max);
      hide OrderAfter, Without, Members, NoDuplicates, Blank;
      if max > 0 && |order| >= max {
        var oldest := order[0];
        order := order[1..];
        sessions := sessions - {oldest};
      }
      sessions := sessions[id := session];
      order := order + [id];
    }

    /** `get`. A blank id finds nothing. */
    method Get(id: string) returns (found: Option<Session>)
      requires Valid()
      ensures found == if id in sessions && !Blank(id) then Some(sessions[id]) else None
    {
      BlankTrimsToNothing(id);
      hide TrimSpace, Blank, OrderAfter;
      if TrimSpace(id) == "" || id !in sessions {
        return None;
      }
      return Some(sessions[id]);
    }

    /** `remove`. */
    method Remove(id: string)
      requires Valid()
      modifies this
      ensures Valid() && log == old(log) + [Removed(id)]
      ensures if Blank(id) then sessions == old(sessions) && order == old(order)
              else sessions == old(sessions) - {id} && order == Without(old(order), id)
    {
      OrderNext(log, Removed(id), max);
      log := log + [Removed(id)];
      BlankTrimsToNothing(id);
      hide TrimSpace, Blank, OrderAfter;
      if TrimSpace(id) == "" {
        return;
      }
      assert forall x :: x in order <==> x in sessions;
      if id !in sessions {
        WithoutAbsent(order, id);
        assert sessions - {id} == sessions;
        return;
      }
      sessions := sessions - {id};
      for i := 0 to |order|
        invariant order == old(order) && sessions == old(sessions) - {id} && log == old(log) + [Removed(id)]
        invariant forall k :: 0 <= k < i ==> order[k] != id
      {
        if order[i] == id {
          WithoutSkips(order, i);
          OneLeaves(order, i);
          order := order[..i] + order[i + 1..];
          return;
        }
      }
      assert false;
    }
  }

  /** What `create` leaves still lists each session once. */
  lemma Admitted(order: seq<string>, sessions: map<string, Session>, session: Session, full: bool)
    requires NoDuplicates(order) && Members(order) == sessions.Keys && session.id !in sessions && (full ==> order != [])
    requires forall id <- sessions :: sessions[id].id == id
    ensures var order' := (if full then order[1..] else order) + [session.id];
      var sessions' := (if full then sessions - {order[0]} else sessions)[session.id := session];
      && NoDuplicates(order') && Members(order') == sessions'.Keys && forall id <- sessions' :: sessions'[id].id == id
  {
    assert session.id !in order && Members(order) == sessions.Keys;
    var kept := if full then order[1..] else order;
    if full {
      OldestLeaves(order);
    }
    NewestJoins(kept, session.id);
    hide NoDuplicates, Members;
  }

  lemma OldestLeaves(order: seq<string>)
    requires order != [] && NoDuplicates(order)
    ensures NoDuplicates(order[1..]) && Members(order[1..]) == Members(order) - {order[0]}
  {
    OneLeaves(order, 0);
    assert order[..0] + order[1..] == order[1..];
  }

  lemma OneLeaves(order: seq<string>, at: nat)
    requires at < |order| && NoDuplicates(order)
    ensures NoDuplicates(order[..at] + order[at + 1..])
    ensures Members(order[..at] + order[at + 1..]) == Members(order) - {order[at]}
  {
    var left := order[..at] + order[at + 1..];
    forall x ensures x in left <==> x in order && x != order[at] {
      if x in order && x != order[at] {
        var k :| 0 <= k < |order| && order[k] == x;
        assert if k < at then left[k] == x else left[k - 1] == x;
      }
    }
  }

  lemma NewestJoins(order: seq<string>, id: string)
    requires NoDuplicates(order) && id !in order
    ensures NoDuplicates(order + [id]) && Members(order + [id]) == Members(order) + {id}
  {
  }

  // ----- whole runs -----

  function Creations(ids: seq<string>): seq<Request> {
    seq(|ids|, i requires 0 <= i < |ids| => Created(ids[i]))
  }

  /** Sessions that are only ever created leave the newest ones, oldest first. */
  lemma {:induction false} NewestSurvive(ids: seq<string>, max: nat)
    ensures OrderAfter(Creations(ids), max) == if max == 0 || |ids| <= max then ids else ids[|ids| - max..]
  {
    if ids == [] {
      assert Creations(ids) == [];
    } else {
      hide OrderAfter, Without, Blank;
      var n := |ids| - 1;
      var init := Creations(ids[..n]);
      NewestSurvive(ids[..n], max);
      assert Creations(ids) == init + [Created(ids[n])];
      OrderNext(init, Created(ids[n]), max);
      NewestNext(ids, max, OrderAfter(init, max));
    }
  }

  lemma NewestNext(ids: seq<string>, max: nat, before: seq<string>)
    requires ids != []
    requires var n := |ids| - 1; before == if max == 0 || n <= max then ids[..n] else ids[..n][n - max..]
    ensures (if max > 0 && |before| == max then before[1..] else before) + [ids[|ids| - 1]]
         == if max == 0 || |ids| <= max then ids else ids[|ids| - max..]
  {
    assert ids == ids[..|ids| - 1] + [ids[|ids| - 1]];
  }

  /** Created ids, in the order they were created. */
  function CreatedIds(requests: seq<Request>): seq<string> {
    if requests == [] then []
    else
      CreatedIds(requests[..|requests| - 1])
      + (match requests[|requests| - 1] { case Created(id) => [id] case Removed(_) => [] })
  }

  /** `s` is `t` with some elements left out. */
  ghost predicate Thins(s: seq<string>, t: seq<string>)
    decreases |t|
  {
    s == [] || (t != [] && (Thins(s, t[..|t| - 1]) || (s[|s| - 1] == t[|t| - 1] && Thins(s[..|s| - 1], t[..|t| - 1]))))
  }

  lemma ThinsSnoc(s: seq<string>, t: seq<string>, id: string)
    requires Thins(s, t)
    ensures Thins(s + [id], t + [id])
  {
    assert (s + [id])[..|s|] == s && (t + [id])[..|t|] == t;
  }

  lemma {:induction false} ThinsTail(s: seq<string>, t: seq<string>)
    requires Thins(s, t) && s != []
    ensures Thins(s[1..], t)
    decreases |t|
  {
    if |s| > 1 {
      if Thins(s, t[..|t| - 1]) {
        ThinsTail(s, t[..|t| - 1]);
      } else {
        ThinsTail(s[..|s| - 1], t[..|t| - 1]);
        assert s[1..][..|s| - 2] == s[..|s| - 1][1..];
      }
    }
  }

  lemma {:induction false} ThinsWithout(s: seq<string>, t: seq<string>, id: string)
    requires Thins(s, t)
    ensures Thins(Without(s, id), t)
    decreases |t|
  {
    if s != [] {
      if Thins(s, t[..|t| - 1]) {
        ThinsWithout(s, t[..|t| - 1], id);
      } else {
        var n := |s| - 1;
        ThinsWithout(s[..n], t[..|t| - 1], id);
        if s[n] != id {
          ThinsSnoc(Without(s[..n], id), t[..|t| - 1], s[n]);
          assert t == t[..|t| - 1] + [s[n]];
        } else {
          assert Without(s, id) == Without(s[..n], id);
          ThinsMore(Without(s[..n], id), t);
        }
      }
    }
  }

  lemma ThinsMore(s: seq<string>, t: seq<string>)
    requires t != [] && Thins(s, t[..|t| - 1])
    ensures Thins(s, t)
  {
  }

  /** Whatever is created and removed, the order stays that of creation. */
  lemma {:induction false} OrderIsCreationOrder(requests: seq<Request>, max: nat)
    ensures Thins(OrderAfter(requests, max), CreatedIds(requests))
  {
    hide Blank;
    if requests != [] {
      var init, last := requests[..|requests| - 1], requests[|requests| - 1];
      OrderIsCreationOrder(init, max);
      var order, ids := OrderAfter(init, max), CreatedIds(init);
      match last {
        case Created(id) =>
          if max > 0 && |order| == max {
            ThinsTail(order, ids);
            ThinsSnoc(order[1..], ids, id);
          } else {
            ThinsSnoc(order, ids, id);
          }
        case Removed(id) =>
          assert ids + [] == ids;
          ThinsWithout(order, ids, id);
      }
    }
  }

  /** So it is in every registry. */
  lemma ListsInCreationOrder(registry: Registry)
    requires registry.Valid()
    ensures Thins(registry.order, CreatedIds(registry.log))
  {
    OrderIsCreationOrder(registry.log, registry.max);
  }
}
