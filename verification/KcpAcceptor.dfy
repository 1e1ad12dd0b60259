/** `kcp::acceptor` over `udp::acceptor`: the table of accepted endpoints and the
    cyclic allocation of conversation ids. */
module KcpAcceptor {
  import opened Bytes

  datatype Endpoint = Endpoint(address: nat, port: nat)

  /** An entry of `remote_endpoints_`: a pointer to the endpoint object that the
      accept step made for the conversation `owner`. */
  datatype EndpointRef = EndpointRef(owner: uint32, endpoint: Endpoint)

  datatype Option<T> = None | Some(value: T)

  // ---------- ids ----------

  /** There are 2^32 - 1 ids: all but zero. */
  const IDS: nat := TWO_TO_THE_32 - 1

  /** `++conv ? conv : 1`, with the wrap-around of uint32. */
  function Next(c: uint32): uint32 {
    if (c + 1) % TWO_TO_THE_32 == 0 then 1 else (c + 1) % TWO_TO_THE_32
  }

  /** What `get_conv` returns if it stops within `calls` calls. */
  function Search(c: uint32, used: set<uint32>, calls: nat): Option<uint32>
    decreases calls
  {
    if calls == 0 then None
    else if Next(c) !in used then Some(Next(c))
    else Search(Next(c), used, calls - 1)
  }

  /** The `k`-th id after `c` in cyclic order. */
  function Nth(c: uint32, k: nat): uint32 {
    if k == 0 then c else (c + k - 1) % IDS + 1
  }

  lemma NextIs(c: uint32)
    ensures Next(c) == if c == IDS then 1 else c + 1
  {
  }

  lemma ModOneRound(k: nat)
    ensures (IDS + k) % IDS == k % IDS
  {
  }

  lemma NthOfNext(c: uint32, k: nat)
    ensures Nth(Next(c), k) == Nth(c, k + 1)
  {
    NextIs(c);
    if c == IDS {
      ModOneRound(k);
    }
  }

  lemma NthDistinct(c: uint32, i: nat, k: nat)
    requires 1 <= i < k <= IDS
    ensures Nth(c, i) != Nth(c, k)
  {
    var x, d := c + i - 1, k - i;
    assert (x + d) % IDS == if x % IDS + d < IDS then x % IDS + d else x % IDS + d - IDS;
  }

  /** The first `k` ids after `c`. */
  function Following(c: uint32, k: nat): set<uint32> {
    if k == 0 then {} else Following(c, k - 1) + {Nth(c, k)}
  }

  lemma {:induction false} FollowingIs(c: uint32, k: nat)
    ensures forall x :: x in Following(c, k) <==> exists i :: 1 <= i <= k && x == Nth(c, i)
  {
    if k > 0 {
      FollowingIs(c, k - 1);
    }
  }

  lemma {:induction false} FollowingSize(c: uint32, k: nat)
    requires k <= IDS
    ensures |Following(c, k)| == k
  {
    if k > 0 {
      FollowingSize(c, k - 1);
      FollowingIs(c, k - 1);
      forall i | 1 <= i < k ensures Nth(c, i) != Nth(c, k) {
        NthDistinct(c, i, k);
      }
    }
  }

  lemma SubsetSmaller<T>(a: set<T>, b: set<T>)
    requires a <= b
    ensures |a| <= |b|
  {
    assert b == a + (b - a);
  }

  /** The search stops at the first id in cyclic order that is not in use, and
      finds none exactly when all those tried are in use. */
  lemma {:induction false} SearchIsFirstFree(c: uint32, used: set<uint32>, calls: nat)
    ensures var r := Search(c, used, calls);
            if r.None? then
              forall i :: 1 <= i <= calls ==> Nth(c, i) in used
            else
              && r.value !in used && r.value != 0
              && exists k :: 1 <= k <= calls && r.value == Nth(c, k)
                             && forall i :: 1 <= i < k ==> Nth(c, i) in used
    decreases calls
  {
    if calls > 0 {
      NthOfNext(c, 0);
      if Next(c) !in used {
        assert Search(c, used, calls).value == Nth(c, 1);
      } else {
        SearchIsFirstFree(Next(c), used, calls - 1);
        forall i: nat ensures Nth(Next(c), i) == Nth(c, i + 1) {
          NthOfNext(c, i);
        }
        var r := Search(Next(c), used, calls - 1);
        if r.Some? {
          var k :| 1 <= k <= calls - 1 && r.value == Nth(Next(c), k)
                   && forall i :: 1 <= i < k ==> Nth(Next(c), i) in used;
          ShiftUsed(c, used, k);
          assert r.value == Nth(c, k + 1);
        } else {
          ShiftUsed(c, used, calls);
        }
      }
    }
  }

  lemma ShiftUsed(c: uint32, used: set<uint32>, k: nat)
    requires Next(c) in used
    requires forall i :: 1 <= i < k ==> Nth(Next(c), i) in used
    ensures forall i :: 1 <= i < k + 1 ==> Nth(c, i) in used
  {
    forall i | 1 <= i < k + 1 ensures Nth(c, i) in used {
      NthOfNext(c, i - 1);
    }
  }

  /** With an id free, `get_conv` stops within one call more than there are ids in
      use, from any counter value. */
  lemma SearchStops(c: uint32, used: set<uint32>)
    requires |used| < IDS
    ensures Search(c, used, |used| + 1).Some?
  {
    var n := |used| + 1;
    SearchIsFirstFree(c, used, n);
    if Search(c, used, n).None? {
      FollowingIs(c, n);
      FollowingSize(c, n);
      SubsetSmaller(Following(c, n), used);
      assert false;
    }
  }

  /** `get_conv` stops exactly when not all ids are in use. */
  lemma SearchStopsIff(c: uint32, used: set<uint32>)
    requires 0 !in used
    ensures (exists calls: nat :: Search(c, used, calls).Some?) <==> |used| < IDS
  {
    if |used| < IDS {
      SearchStops(c, used);
    } else {
      forall calls: nat ensures Search(c, used, calls).None? {
        SearchIsFirstFree(c, used, calls);
        var r := Search(c, used, calls);
        if r.Some? {
          FollowingSize(c, IDS);
          AllIdsFollow(c, used + {r.value});
          SubsetSmaller(used + {r.value}, Following(c, IDS));
          assert false;
        }
      }
    }
  }

  /** Every id comes up within one round. */
  lemma EveryIdComes(c: uint32, x: uint32) returns (k: nat)
    requires x != 0
    ensures 1 <= k <= IDS && x == Nth(c, k)
  {
    if x > c {
      k := x - c;
      assert (x - 1) % IDS == x - 1;
    } else if c - x < IDS {
      k := x - c + IDS;
      assert (x - 1 + IDS) % IDS == x - 1;
    } else {
      k := IDS;
    }
  }

  lemma AllIdsFollow(c: uint32, ids: set<uint32>)
    requires 0 !in ids
    ensures ids <= Following(c, IDS)
  {
    FollowingIs(c, IDS);
    forall x | x in ids ensures x in Following(c, IDS) {
      var k := EveryIdComes(c, x);
    }
  }

  // ---------- the tables ----------

  datatype Tables = Tables(counter: uint32, convs: map<uint32, Endpoint>, endpoints: seq<EndpointRef>)

  predicate Accepted(endpoints: seq<EndpointRef>, e: Endpoint) {
    exists i :: 0 <= i < |endpoints| && endpoints[i].endpoint == e
  }

  /** Erasing the first entry that compares equal. */
  function EraseFirst(endpoints: seq<EndpointRef>, e: Endpoint): seq<EndpointRef> {
    if endpoints == [] then []
    else if endpoints[0].endpoint == e then endpoints[1..]
    else [endpoints[0]] + EraseFirst(endpoints[1..], e)
  }

  function EraseAt(endpoints: seq<EndpointRef>, i: nat): (left: seq<EndpointRef>)
    requires i < |endpoints|
    ensures |left| == |endpoints| - 1
    ensures forall k :: 0 <= k < |left| ==> left[k] == endpoints[if k < i then k else k + 1]
  {
    endpoints[..i] + endpoints[i + 1..]
  }

  datatype Event = Arrival(from: Endpoint, connects: bool) | Closing(conv: uint32)

  function AcceptStep(t: Tables, from: Endpoint, connects: bool): Tables {
    if Accepted(t.endpoints, from) || !connects then t
    else
      match Search(t.counter, t.convs.Keys, |t.convs| + 1)
      case None => t
      case Some(id) => Tables(id, t.convs[id := from], t.endpoints + [EndpointRef(id, from)])
  }

  function CloseStep(t: Tables, conv: uint32, e: Endpoint): Tables {
    t.(convs := t.convs - {conv}, endpoints := EraseFirst(t.endpoints, e))
  }

  function Step(t: Tables, e: Event): Tables {
    match e
    case Arrival(from, connects) => AcceptStep(t, from, connects)
    case Closing(conv) => if conv in t.convs then CloseStep(t, conv, t.convs[conv]) else t
  }

  function Run(t: Tables, events: seq<Event>): Tables
    decreases |events|
  {
    if events == [] then t else Run(Step(t, events[0]), events[1..])
  }

  /** Every listed endpoint belongs to the live conversation it was made for. */
  predicate Owned(t: Tables) {
    forall i :: 0 <= i < |t.endpoints| ==>
      t.endpoints[i].owner in t.convs && t.convs[t.endpoints[i].owner] == t.endpoints[i].endpoint
  }

  predicate NoDuplicates(endpoints: seq<EndpointRef>) {
    forall i, j :: 0 <= i < j < |endpoints| ==> endpoints[i].endpoint != endpoints[j].endpoint
  }

  /** Every live conversation has its endpoint listed. */
  predicate Listed(t: Tables) {
    forall c :: c in t.convs ==> EndpointRef(c, t.convs[c]) in t.endpoints
  }

  /** The list and the table are in one-to-one correspondence, and no endpoint is
      listed twice. */
  predicate Paired(t: Tables) {
    0 !in t.convs && |t.endpoints| == |t.convs| && Owned(t) && NoDuplicates(t.endpoints) && Listed(t)
  }

  lemma {:induction false} EraseFirstErasesAt(endpoints: seq<EndpointRef>, i: nat)
    requires i < |endpoints|
    requires forall j :: 0 <= j < i ==> endpoints[j].endpoint != endpoints[i].endpoint
    ensures EraseFirst(endpoints, endpoints[i].endpoint) == EraseAt(endpoints, i)
  {
    if i > 0 {
      EraseFirstErasesAt(endpoints[1..], i - 1);
    }
  }

  lemma AddPaired(t: Tables, id: uint32, from: Endpoint)
    requires Paired(t) && id !in t.convs && id != 0 && !Accepted(t.endpoints, from)
    ensures Paired(Tables(id, t.convs[id := from], t.endpoints + [EndpointRef(id, from)]))
  {
    var u := Tables(id, t.convs[id := from], t.endpoints + [EndpointRef(id, from)]);
    assert Owned(u);
    assert NoDuplicates(u.endpoints);
    assert u.endpoints[|t.endpoints|] == EndpointRef(id, from);
    assert Listed(u);
  }

  lemma AcceptPaired(t: Tables, from: Endpoint, connects: bool)
    requires Paired(t)
    ensures Paired(AcceptStep(t, from, connects))
  {
    var r := Search(t.counter, t.convs.Keys, |t.convs| + 1);
    SearchIsFirstFree(t.counter, t.convs.Keys, |t.convs| + 1);
    if r.Some? && !Accepted(t.endpoints, from) {
      AddPaired(t, r.value, from);
    }
  }

  /** Closing a conversation takes out exactly the entry made for it. */
  lemma CloseErasesItsEntry(t: Tables, conv: uint32) returns (i: nat)
    requires Paired(t) && conv in t.convs
    ensures i < |t.endpoints| && t.endpoints[i] == EndpointRef(conv, t.convs[conv])
    ensures CloseStep(t, conv, t.convs[conv]).endpoints == EraseAt(t.endpoints, i)
    ensures Paired(CloseStep(t, conv, t.convs[conv]))
  {
    assert EndpointRef(conv, t.convs[conv]) in t.endpoints;
    i :| 0 <= i < |t.endpoints| && t.endpoints[i] == EndpointRef(conv, t.convs[conv]);
    EraseFirstErasesAt(t.endpoints, i);
    ErasedPaired(t, i);
  }

  lemma ErasedListed(t: Tables, i: nat, c: uint32)
    requires Paired(t) && i < |t.endpoints| && c in t.convs && c != t.endpoints[i].owner
    ensures EndpointRef(c, t.convs[c]) in EraseAt(t.endpoints, i)
  {
    var e := EndpointRef(c, t.convs[c]);
    assert e in t.endpoints;
    var j :| 0 <= j < |t.endpoints| && t.endpoints[j] == e;
    var left := EraseAt(t.endpoints, i);
    assert left[if j < i then j else j - 1] == e;
  }

  lemma ErasedPaired(t: Tables, i: nat)
    requires Paired(t) && i < |t.endpoints|
    ensures Paired(t.(convs := t.convs - {t.endpoints[i].owner}, endpoints := EraseAt(t.endpoints, i)))
  {
    var gone := t.endpoints[i].owner;
    var u := t.(convs := t.convs - {gone}, endpoints := EraseAt(t.endpoints, i));
    assert u.convs.Keys == t.convs.Keys - {gone};
    assert Owned(u) by {
      forall k | 0 <= k < |u.endpoints|
        ensures u.endpoints[k].owner in u.convs && u.convs[u.endpoints[k].owner] == u.endpoints[k].endpoint
      {
        assert u.endpoints[k] == t.endpoints[if k < i then k else k + 1];
      }
    }
    assert NoDuplicates(u.endpoints);
    forall c | c in u.convs ensures EndpointRef(c, u.convs[c]) in u.endpoints {
      ErasedListed(t, i, c);
    }
  }

  /** In every run of arrivals and closes the endpoint list and the conversation
      table stay paired. */
  lemma {:induction false} RunPaired(t: Tables, events: seq<Event>)
    requires Paired(t)
    ensures Paired(Run(t, events))
    decreases |events|
  {
    if events != [] {
      match events[0] {
        case Arrival(from, connects) => AcceptPaired(t, from, connects);
        case Closing(conv) =>
          if conv in t.convs {
            var i := CloseErasesItsEntry(t, conv);
          }
      }
      RunPaired(Step(t, events[0]), events[1..]);
    }
  }

  // ---------- who is accepted ----------

  /** The conversation of an endpoint is closed. */
  predicate Dismisses(t: Tables, e: Event, x: Endpoint) {
    e.Closing? && e.conv in t.convs && t.convs[e.conv] == x
  }

  /** With an id free, a datagram from an endpoint that is not listed and to which
      connecting back succeeds adds exactly that endpoint, under an id not in use. */
  lemma ArrivalAccepts(t: Tables, from: Endpoint, connects: bool)
    requires Paired(t) && |t.convs| < IDS
    ensures var u := AcceptStep(t, from, connects);
            if connects && !Accepted(t.endpoints, from) then
              && u.counter != 0 && u.counter !in t.convs
              && u.convs == t.convs[u.counter := from]
              && u.endpoints == t.endpoints + [EndpointRef(u.counter, from)]
            else
              u == t
  {
    SearchStops(t.counter, t.convs.Keys);
    SearchIsFirstFree(t.counter, t.convs.Keys, |t.convs| + 1);
  }

  /** One step lists an endpoint, keeps it or dismisses it. */
  lemma AcceptedStep(t: Tables, e: Event, x: Endpoint)
    requires Paired(t) && (e.Arrival? ==> |t.convs| < IDS)
    ensures Accepted(Step(t, e).endpoints, x) <==>
            e == Arrival(x, true) || (Accepted(t.endpoints, x) && !Dismisses(t, e, x))
  {
    match e
    case Arrival(from, connects) =>
      ArrivalAccepts(t, from, connects);
      ListedOneMore(t.endpoints, EndpointRef(Step(t, e).counter, from), x);
    case Closing(conv) =>
      if conv in t.convs {
        var i := CloseErasesItsEntry(t, conv);
        ListedOneLess(t, i, x);
      }
  }

  lemma ListedOneMore(endpoints: seq<EndpointRef>, r: EndpointRef, x: Endpoint)
    ensures Accepted(endpoints + [r], x) <==> Accepted(endpoints, x) || r.endpoint == x
  {
    var more := endpoints + [r];
    assert more[|endpoints|] == r;
    assert forall i :: 0 <= i < |endpoints| ==> more[i] == endpoints[i];
  }

  lemma ListedOneLess(t: Tables, i: nat, x: Endpoint)
    requires Paired(t) && i < |t.endpoints|
    ensures Accepted(EraseAt(t.endpoints, i), x) <==>
            Accepted(t.endpoints, x) && t.endpoints[i].endpoint != x
  {
    var left := EraseAt(t.endpoints, i);
    if j :| 0 <= j < |t.endpoints| && t.endpoints[j].endpoint == x && j != i {
      assert left[if j < i then j else j - 1] == t.endpoints[j];
    }
  }

  /** Whether the last that happened to an endpoint was its acceptance. */
  predicate LastAccepted(t: Tables, events: seq<Event>, x: Endpoint, before: bool)
    decreases |events|
  {
    if events == [] then before
    else
      var now := events[0] == Arrival(x, true) || (before && !Dismisses(t, events[0], x));
      LastAccepted(Step(t, events[0]), events[1..], x, now)
  }

  /** Whenever a datagram arrives, an id is free. */
  predicate RoomThroughout(t: Tables, events: seq<Event>)
    decreases |events|
  {
    events == [] ||
    ((events[0].Arrival? ==> |t.convs| < IDS) && RoomThroughout(Step(t, events[0]), events[1..]))
  }

  /** In every run the endpoints accepted are those that arrived, connected and have
      not been closed since. */
  lemma {:induction false} RunAccepted(t: Tables, events: seq<Event>, x: Endpoint)
    requires Paired(t) && RoomThroughout(t, events)
    ensures Accepted(Run(t, events).endpoints, x) <==> LastAccepted(t, events, x, Accepted(t.endpoints, x))
    decreases |events|
  {
    if events != [] {
      AcceptedStep(t, events[0], x);
      RunPaired(t, [events[0]]);
      assert [events[0]][1..] == [];
      assert Run(t, [events[0]]) == Run(Step(t, events[0]), []);
      RunAccepted(Step(t, events[0]), events[1..], x);
    }
  }

  // ---------- the class ----------

  class Acceptor {
    var conv: uint32
    var convs: map<uint32, Endpoint>
    var remoteEndpoints: seq<EndpointRef>

    function View(): Tables
      reads this
    {
      Tables(conv, convs, remoteEndpoints)
    }

    constructor ()
      ensures View() == Tables(0, map[], []) && Paired(View())
    {
      conv := 0;
      convs := map[];
      remoteEndpoints := [];
    }

    method IsAccepted(e: Endpoint) returns (found: bool)
      ensures found <==> Accepted(remoteEndpoints, e)
    {
      var i := 0;
      while i < |remoteEndpoints|
        invariant i <= |remoteEndpoints|
        invariant forall j :: 0 <= j < i ==> remoteEndpoints[j].endpoint != e
      {
        if remoteEndpoints[i].endpoint == e {
          return true;
        }
        i := i + 1;
      }
      return false;
    }

    /** `udp::acceptor::close` */
    method CloseEndpoint(e: Endpoint)
      modifies this`remoteEndpoints
      ensures remoteEndpoints == EraseFirst(old(remoteEndpoints), e)
    {
      var i := 0;
      while i < |remoteEndpoints|
        invariant i <= |remoteEndpoints| && remoteEndpoints == old(remoteEndpoints)
        invariant forall j :: 0 <= j < i ==> remoteEndpoints[j].endpoint != e
      {
        if remoteEndpoints[i].endpoint == e {
          EraseFirstErasesAt(remoteEndpoints, i);
          remoteEndpoints := EraseAt(remoteEndpoints, i);
          return;
        }
        i := i + 1;
      }
      EraseNothing(remoteEndpoints, e);
    }

    /** `calls` bounds the recursion: the original demands that some id be free. */
    method GetConv(ghost calls: nat) returns (id: uint32)
      requires Search(conv, convs.Keys, calls).Some?
      modifies this`conv
      ensures id == conv == Search(old(conv), convs.Keys, calls).value
      decreases calls
    {
      var next := (conv + 1) % TWO_TO_THE_32;
      conv := if next != 0 then next else 1;
      if conv in convs {
        id := GetConv(calls - 1);
      } else {
        id := conv;
      }
    }

    /** A datagram from `from`, and whether connecting back to it succeeds. */
    method OnArrival(from: Endpoint, connects: bool)
      requires Paired(View()) && |convs| < IDS
      modifies this
      ensures View() == AcceptStep(old(View()), from, connects) && Paired(View())
      ensures if connects && old(!Accepted(remoteEndpoints, from)) then
                && conv != 0 && conv !in old(convs) && convs == old(convs)[conv := from]
                && remoteEndpoints == old(remoteEndpoints) + [EndpointRef(conv, from)]
              else
                unchanged(this)
    {
      ArrivalAccepts(View(), from, connects);
      AcceptPaired(View(), from, connects);
      var known := IsAccepted(from);
      if !known && connects {
        SearchStops(conv, convs.Keys);
        var id := GetConv(|convs| + 1);
        remoteEndpoints := remoteEndpoints + [EndpointRef(id, from)];
        convs := convs[id := from];
      }
    }

    /** The deleter of an endpoint: it remembers its conversation and endpoint. */
    method Close(id: uint32, e: Endpoint)
      requires Paired(View()) && id in convs && convs[id] == e
      modifies this
      ensures View() == CloseStep(old(View()), id, e) && Paired(View())
      ensures convs == old(convs) - {id} && conv == old(conv)
      ensures exists i :: 0 <= i < |old(remoteEndpoints)| && old(remoteEndpoints)[i] == EndpointRef(id, e)
                          && remoteEndpoints == EraseAt(old(remoteEndpoints), i)
    {
      ghost var i := CloseErasesItsEntry(View(), id);
      Erase(id, e);
    }

    method Erase(id: uint32, e: Endpoint)
      modifies this
      ensures View() == CloseStep(old(View()), id, e)
    {
      convs := convs - {id};
      CloseEndpoint(e);
    }
  }

  lemma {:induction false} EraseNothing(endpoints: seq<EndpointRef>, e: Endpoint)
    requires forall j :: 0 <= j < |endpoints| ==> endpoints[j].endpoint != e
    ensures EraseFirst(endpoints, e) == endpoints
  {
    if endpoints != [] {
      EraseNothing(endpoints[1..], e);
    }
  }
}
