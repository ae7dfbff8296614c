/**
The order book of src/OrderBookImpl.cpp: one group of bids and asks per registered instrument, updated in place.
The locks of the source make every call atomic.  The outcome of the attached OrderSaver is a parameter of `Add`.
*/
module OrderBookClass {
  import opened Common
  import opened BookModel

  type InstrumentId = nat

  datatype Group = Group(buy: seq<Entry>, sell: seq<Entry>) {
    function On(side: Side): seq<Entry> {
      if side.Buy? then buy else sell
    }

    function With(side: Side, list: seq<Entry>): Group {
      if side.Buy? then this.(buy := list) else this.(sell := list)
    }

    predicate Sorted() {
      SortedSide(Buy, buy) && SortedSide(Sell, sell)
    }
  }

  type Groups = map<InstrumentId, Group>

  /** What an order tells the book; `side` is None for the sides the book does not support. */
  datatype Quote = Quote(instrument: InstrumentId, side: Option<Side>, price: real, id: OrderId)

  /** How a call ends: normally, or with one of the exceptions of the source. */
  datatype Outcome = Done | UnknownInstrument | UnsupportedSide | NotFound | SaveFailed

  predicate AllSorted(groups: Groups) {
    forall i :: i in groups ==> groups[i].Sorted()
  }

  predicate Known(groups: Groups, q: Quote) {
    q.instrument in groups && q.side.Some?
  }

  function ListOf(groups: Groups, q: Quote): seq<Entry>
    requires Known(groups, q)
  {
    groups[q.instrument].On(q.side.value)
  }

  function WithList(groups: Groups, q: Quote, list: seq<Entry>): Groups
    requires Known(groups, q)
  {
    groups[q.instrument := groups[q.instrument].With(q.side.value, list)]
  }

  function Refusal(groups: Groups, q: Quote): Outcome {
    if q.instrument !in groups then UnknownInstrument
    else if q.side.None? then UnsupportedSide
    else Done
  }

  function AddedTo(groups: Groups, q: Quote): Groups {
    if Known(groups, q) then WithList(groups, q, Inserted(q.side.value, ListOf(groups, q), Entry(q.price, q.id)))
    else groups
  }

  function RemovedFrom(groups: Groups, q: Quote): Groups {
    if Known(groups, q) then WithList(groups, q, Without(ListOf(groups, q), Entry(q.price, q.id)))
    else groups
  }

  predicate Holds(groups: Groups, q: Quote) {
    Known(groups, q) && Entry(q.price, q.id) in ListOf(groups, q)
  }

  lemma AddedToIs(groups: Groups, q: Quote)
    requires AllSorted(groups)
    ensures AllSorted(AddedTo(groups, q)) && AddedTo(groups, q).Keys == groups.Keys
    ensures Known(groups, q) ==> Holds(AddedTo(groups, q), q)
  {
    if Known(groups, q) {
      var e := Entry(q.price, q.id);
      InsertedIs(q.side.value, ListOf(groups, q), e);
      assert Inserted(q.side.value, ListOf(groups, q), e)[UpperBound(q.side.value, ListOf(groups, q), e.price)] == e;
    }
  }

  lemma RemovedFromIs(groups: Groups, q: Quote)
    requires AllSorted(groups)
    ensures AllSorted(RemovedFrom(groups, q)) && RemovedFrom(groups, q).Keys == groups.Keys
  {
    if Known(groups, q) {
      WithoutIs(q.side.value, ListOf(groups, q), Entry(q.price, q.id));
    }
  }

  // ---------------------------------------------------------------- searching

  /** The answer of an OrderFunctor for one order: what `match` returns, and the stop flag. */
  datatype Verdict = Verdict(accept: bool, stop: bool)

  type Functor = OrderId -> Verdict

  function FirstFound(list: seq<Entry>, f: Functor): OrderId {
    if list == [] then NO_ORDER
    else
      var v := f(list[0].id);
      if v.accept then list[0].id else if v.stop then NO_ORDER else FirstFound(list[1..], f)
  }

  /** A functor may accept an order and stop at it. */
  function AllFound(list: seq<Entry>, f: Functor): seq<OrderId> {
    if list == [] then []
    else
      var v := f(list[0].id);
      (if v.accept then [list[0].id] else []) + if v.stop then [] else AllFound(list[1..], f)
  }

  /** What a search still finds behind position `k`. */
  function Rest(list: seq<Entry>, f: Functor, k: nat, stop: bool): seq<OrderId>
    requires k <= |list|
  {
    if stop then [] else AllFound(list[k..], f)
  }

  lemma AllFoundNext(list: seq<Entry>, f: Functor, k: nat)
    requires k < |list|
    ensures var v := f(list[k].id);
            AllFound(list[k..], f) ==
            (if v.accept then [list[k].id] else []) + Rest(list, f, k + 1, v.stop)
  {
    assert list[k..][1..] == list[k + 1..];
  }

  lemma AllFoundEnds(list: seq<Entry>, f: Functor)
    ensures AllFound(list[|list|..], f) == [] && AllFound(list[0..], f) == AllFound(list, f)
  {
    assert list[0..] == list;
  }

  /** Where a search is decided: the first order that is accepted or stops it, or the end of the list. */
  function Decision(list: seq<Entry>, f: Functor): (k: nat)
    ensures k <= |list| && (k < |list| ==> f(list[k].id).accept || f(list[k].id).stop)
    ensures forall i :: 0 <= i < k ==> !f(list[i].id).accept && !f(list[i].id).stop
  {
    if list == [] || f(list[0].id).accept || f(list[0].id).stop then 0 else 1 + Decision(list[1..], f)
  }

  /** A search finds the order that decides it, if that is accepted. */
  lemma {:induction false} FindIs(list: seq<Entry>, f: Functor)
    ensures var k := Decision(list, f);
            FirstFound(list, f) == if k < |list| && f(list[k].id).accept then list[k].id else NO_ORDER
  {
    if list != [] && !f(list[0].id).accept && !f(list[0].id).stop {
      FindIs(list[1..], f);
    }
  }

  /** How far a search for all orders looks: up to and including the first order that stops it. */
  function Looked(list: seq<Entry>, f: Functor): (k: nat)
    ensures k <= |list| && (k < |list| ==> k > 0 && f(list[k - 1].id).stop)
    ensures forall i :: 0 <= i < k - 1 ==> !f(list[i].id).stop
  {
    if list == [] then 0 else if f(list[0].id).stop then 1 else 1 + Looked(list[1..], f)
  }

  /** The accepted orders of a list. */
  function Accepted(list: seq<Entry>, f: Functor): seq<OrderId> {
    if list == [] then [] else (if f(list[0].id).accept then [list[0].id] else []) + Accepted(list[1..], f)
  }

  /** Such a search finds the accepted orders among these. */
  lemma {:induction false} FindAllIs(list: seq<Entry>, f: Functor)
    ensures AllFound(list, f) == Accepted(list[..Looked(list, f)], f)
  {
    if list != [] {
      var k := Looked(list, f);
      assert list[..k][0] == list[0];
      if f(list[0].id).stop {
        assert list[..1][1..] == [];
      } else {
        FindAllIs(list[1..], f);
        assert list[..k][1..] == list[1..][..k - 1];
      }
    }
  }

  /** A search that never stops early: the first accepted order of the whole list. */
  function FullScan(list: seq<Entry>, accepts: OrderId -> bool): OrderId {
    if list == [] then NO_ORDER
    else if accepts(list[0].id) then list[0].id
    else FullScan(list[1..], accepts)
  }

  lemma {:induction false} FullScanNone(list: seq<Entry>, accepts: OrderId -> bool)
    requires forall i :: 0 <= i < |list| ==> !accepts(list[i].id)
    ensures FullScan(list, accepts) == NO_ORDER
  {
    if list != [] {
      FullScanNone(list[1..], accepts);
    }
  }

  /** Stopping early finds what a full scan finds, provided nothing behind a stop would be accepted. */
  lemma {:induction false} StopIsSound(list: seq<Entry>, f: Functor)
    requires forall i, j :: 0 <= i < j < |list| && f(list[i].id).stop ==> !f(list[j].id).accept
    ensures FirstFound(list, f) == FullScan(list, (id: OrderId) => f(id).accept)
  {
    if list != [] {
      var accepts := (id: OrderId) => f(id).accept;
      if f(list[0].id).stop {
        assert forall j :: 0 <= j < |list[1..]| ==> list[1..][j] == list[j + 1];
        FullScanNone(list[1..], accepts);
      } else {
        StopIsSound(list[1..], f);
      }
    }
  }

  /** The outcome of a search: a result, or one of the exceptions of the source. */
  datatype Search<T> = Found(value: T) | NoInstrument | NoSide

  function Answer<T>(groups: Groups, instrument: InstrumentId, side: Option<Side>, value: T): Search<T> {
    if instrument !in groups then NoInstrument else if side.None? then NoSide else Found(value)
  }

  function Listing(groups: Groups, instrument: InstrumentId, side: Option<Side>): seq<Entry> {
    if instrument in groups && side.Some? then groups[instrument].On(side.value) else []
  }

  // ---------------------------------------------------------------- the class

  class OrderBook {
    var groups: Groups

    constructor (instruments: set<InstrumentId>)
      ensures groups == map i | i in instruments :: Group([], [])
      ensures AllSorted(groups)
    {
      groups := map i | i in instruments :: Group([], []);
    }

    /** The entry goes in before the saver is asked, so it stays in when saving fails. */
    method Add(q: Quote, saves: bool) returns (r: Outcome)
      requires AllSorted(groups)
      modifies this
      ensures AllSorted(groups) && groups == AddedTo(old(groups), q)
      ensures var refusal := Refusal(old(groups), q);
              r == if refusal != Done then refusal else if saves then Done else SaveFailed
    {
      AddedToIs(groups, q);
      if q.instrument !in groups {
        return UnknownInstrument;
      }
      match q.side {
        case None => return UnsupportedSide;
        case Some(side) =>
          var g := groups[q.instrument];
          groups := groups[q.instrument := g.With(side, Inserted(side, g.On(side), Entry(q.price, q.id)))];
      }
      r := if saves then Done else SaveFailed;
    }

    /** Scans the run of equal prices that starts at the lower bound. */
    method EraseFrom(side: Side, list: seq<Entry>, e: Entry) returns (found: bool, rest: seq<Entry>)
      requires SortedSide(side, list)
      ensures found <==> e in list
      ensures rest == Without(list, e)
    {
      LowerBoundIs(side, list, e.price);
      var k := LowerBound(side, list, e.price);
      assert e !in list[..k];
      while k < |list| && list[k].price == e.price
        invariant k <= |list|
        invariant e !in list[..k]
        invariant forall i :: k <= i < |list| ==> !Before(side, list[i].price, e.price)
      {
        if list[k].id == e.id {
          assert list[k] == e;
          assert IndexOf(list, e) == k;
          return true, list[..k] + list[k + 1..];
        }
        k := k + 1;
      }
      assert forall i :: k <= i < |list| ==> list[i] != e;
      return false, list;
    }

    method Remove(q: Quote) returns (r: Outcome)
      requires AllSorted(groups)
      modifies this
      ensures AllSorted(groups) && groups == RemovedFrom(old(groups), q)
      ensures r == if Refusal(old(groups), q) != Done then Refusal(old(groups), q)
                   else if Holds(old(groups), q) then Done else NotFound
    {
      RemovedFromIs(groups, q);
      if q.instrument !in groups {
        return UnknownInstrument;
      }
      match q.side {
        case None => return UnsupportedSide;
        case Some(side) =>
          var found, rest := EraseFrom(side, groups[q.instrument].On(side), Entry(q.price, q.id));
          groups := groups[q.instrument := groups[q.instrument].With(side, rest)];
          r := if found then Done else NotFound;
      }
    }

    method Find(instrument: InstrumentId, side: Option<Side>, f: Functor) returns (r: Search<OrderId>)
      ensures r == Answer(groups, instrument, side, FirstFound(Listing(groups, instrument, side), f))
    {
      if instrument !in groups {
        return NoInstrument;
      }
      if side.None? {
        return NoSide;
      }
      var list, k, stop := groups[instrument].On(side.value), 0, false;
      while k < |list| && !stop
        invariant k <= |list|
        invariant FirstFound(list, f) == if stop then NO_ORDER else FirstFound(list[k..], f)
      {
        assert list[k..][1..] == list[k + 1..];
        var verdict := f(list[k].id);
        if verdict.accept {
          return Found(list[k].id);
        }
        stop := verdict.stop;
        k := k + 1;
      }
      return Found(NO_ORDER);
    }

    method FindAll(instrument: InstrumentId, side: Option<Side>, f: Functor) returns (r: Search<seq<OrderId>>)
      ensures r == Answer(groups, instrument, side, AllFound(Listing(groups, instrument, side), f))
    {
      hide AllFound;
      if instrument !in groups {
        return NoInstrument;
      }
      if side.None? {
        return NoSide;
      }
      var list, k, stop, found: seq<OrderId> := groups[instrument].On(side.value), 0, false, [];
      AllFoundEnds(list, f);
      while k < |list| && !stop
        invariant k <= |list|
        invariant AllFound(list, f) == found + Rest(list, f, k, stop)
      {
        AllFoundNext(list, f, k);
        var verdict := f(list[k].id);
        var hit := if verdict.accept then [list[k].id] else [];
        ConcatAssoc(found, hit, Rest(list, f, k + 1, verdict.stop));
        found := found + hit;
        stop := verdict.stop;
        k := k + 1;
      }
      assert found + [] == found;
      return Found(found);
    }

    /** The front of a side: no order of the side has a better price. */
    method GetTop(instrument: InstrumentId, side: Option<Side>) returns (r: Search<OrderId>)
      requires AllSorted(groups)
      ensures r.NoInstrument? <==> instrument !in groups
      ensures r.NoSide? <==> instrument in groups && side.None?
      ensures r.Found? && Listing(groups, instrument, side) == [] ==> r.value == NO_ORDER
      ensures r.Found? ==> forall i :: 0 <= i < |Listing(groups, instrument, side)| ==>
                var list := Listing(groups, instrument, side);
                list[0].id == r.value && !Before(side.value, list[i].price, list[0].price)
    {
      if instrument !in groups {
        return NoInstrument;
      }
      if side.None? {
        return NoSide;
      }
      var list := groups[instrument].On(side.value);
      return Found(if |list| > 0 then list[0].id else NO_ORDER);
    }
  }
}
