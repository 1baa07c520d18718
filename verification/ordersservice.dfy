/** The order service (`src/services/orders.service.ts`) over an in-memory store that
    stands for the orders collection: records in insertion order, and a counter that
    gives each new record a fresh identifier and a creation time later than every
    earlier one. Every query is scoped by the owner's identifier. */
module OrdersService {
  import opened Common
  import opened JsText
  import opened OrderModel
  import opened Validators

  const TotalNotPositive: string := "Total order value must be greater than 0"
  const NotFound: string := "Order not found"
  const AlreadyCompleted: string := "Order is already completed and cannot be advanced"

  datatype OrderStore = OrderStore(orders: seq<Order>, clock: nat)

  /** The result of an operation together with the store it leaves behind. */
  datatype Step<+T> = Step(result: Result<T>, store: OrderStore)

  /** Records oldest first, by strictly increasing creation time. */
  predicate OldestFirst(os: seq<Order>) {
    forall i, j :: 0 <= i < j < |os| ==> os[i].createdAt < os[j].createdAt
  }

  /** Records newest first, by strictly decreasing creation time. */
  predicate NewestFirst(os: seq<Order>) {
    forall i, j :: 0 <= i < j < |os| ==> os[i].createdAt > os[j].createdAt
  }

  /** The store's invariant: every record satisfies the schema, identifiers are unique
      and the counter is ahead of every identifier and creation time already given. */
  predicate ValidStore(st: OrderStore) {
    && (forall i :: 0 <= i < |st.orders| ==> WellFormed(st.orders[i]))
    && (forall i :: 0 <= i < |st.orders| ==>
          st.orders[i].id < st.clock && st.orders[i].createdAt < st.clock)
    && (forall i, j :: 0 <= i < j < |st.orders| ==> st.orders[i].id != st.orders[j].id)
    && OldestFirst(st.orders)
  }

  const EmptyStore: OrderStore := OrderStore([], 0)

  lemma EmptyStoreValid()
    ensures ValidStore(EmptyStore)
  {
  }

  // ---------------------------------------------------------------------------
  // createOrder

  /** `services.reduce((sum, s) => sum + s.value, 0)`. */
  function TotalValue(ss: seq<ServiceInput>): int {
    if |ss| == 0 then 0 else TotalValue(ss[..|ss| - 1]) + ss[|ss| - 1].value
  }

  /** A total of strictly positive values over a non-empty list is strictly positive. */
  lemma {:induction false} PositiveItemsPositiveTotal(ss: seq<ServiceInput>)
    requires |ss| >= 1
    requires forall i :: 0 <= i < |ss| ==> ss[i].value > 0
    ensures TotalValue(ss) > 0
    decreases |ss|
  {
    if |ss| > 1 {
      PositiveItemsPositiveTotal(ss[..|ss| - 1]);
    }
  }

  /** The line items handed to the schema: each keeps its name and value, and its
      status is PENDING whatever the request said. */
  function PendingServices(ss: seq<ServiceInput>): (ds: seq<ServiceDraft>)
    ensures |ds| == |ss|
    ensures forall i :: 0 <= i < |ss| ==>
              ds[i] == ServiceDraft(ss[i].name, ss[i].value, Some(PENDING))
  {
    seq(|ss|, i requires 0 <= i < |ss| => ServiceDraft(ss[i].name, ss[i].value, Some(PENDING)))
  }

  /** What a successful `createOrder` stores: the request's names and owner, the line
      items in order with status PENDING, state CREATED, status ACTIVE, and the next
      identifier and creation time of the store. */
  predicate CreatedFrom(o: Order, data: CreateOrderInput, userId: string, clock: nat) {
    && o.id == clock && o.createdAt == clock
    && o.lab == data.lab && o.patient == data.patient && o.customer == data.customer
    && o.userId == userId
    && o.state == CREATED && o.status == ACTIVE
    && |o.services| == |data.services|
    && (forall i :: 0 <= i < |o.services| ==>
          o.services[i] == Service(data.services[i].name, data.services[i].value, PENDING))
  }

  /** What the persistence schema demands of the record `createOrder` hands it: the
      names and the owner non-empty, at least one line item, each named and worth at
      least zero. */
  predicate SchemaAdmits(data: CreateOrderInput, userId: string) {
    && |data.lab| > 0 && |data.patient| > 0 && |data.customer| > 0
    && |userId| > 0
    && |data.services| > 0
    && (forall i :: 0 <= i < |data.services| ==>
          |data.services[i].name| > 0 && data.services[i].value >= 0)
  }

  function CreateOrder(st: OrderStore, data: CreateOrderInput, userId: string): (r: Step<Order>)
    ensures TotalValue(data.services) <= 0 ==> r == Step(Err(TotalNotPositive), st)
    ensures r.result == Err(TotalNotPositive) <==> TotalValue(data.services) <= 0
    ensures r.result.Ok? <==> TotalValue(data.services) > 0 && SchemaAdmits(data, userId)
    ensures r.result.Err? ==> r.store == st
    ensures r.result.Err? ==> r.result.message in {TotalNotPositive, ValidationFailed}
    ensures r.result.Ok? ==>
              && TotalValue(data.services) > 0
              && WellFormed(r.result.value)
              && CreatedFrom(r.result.value, data, userId, st.clock)
              && r.store == OrderStore(st.orders + [r.result.value], st.clock + 1)
  {
    if TotalValue(data.services) <= 0 then Step(Err(TotalNotPositive), st)
    else
      var draft := OrderDraft(data.lab, data.patient, data.customer,
                              PendingServices(data.services), Some(CREATED), Some(ACTIVE), userId);
      match SchemaCreate(draft, st.clock, st.clock)
      case Err(m) => Step(Err(m), st)
      case Ok(o) => Step(Ok(o), OrderStore(st.orders + [o], st.clock + 1))
  }

  /** Input the create-order schema accepted, from an authenticated caller, is never
      refused: neither the total check nor the persistence schema can fire. */
  lemma ValidatedCreateSucceeds(st: OrderStore, b: OrderBody, userId: string)
    requires ParseCreateOrder(b).Valid?
    requires |userId| > 0
    ensures TotalValue(ParseCreateOrder(b).value.services) > 0
    ensures CreateOrder(st, ParseCreateOrder(b).value, userId).result.Ok?
  {
    var data := ParseCreateOrder(b).value;
    PositiveItemsPositiveTotal(data.services);
    var draft := OrderDraft(data.lab, data.patient, data.customer,
                            PendingServices(data.services), Some(CREATED), Some(ACTIVE), userId);
    assert DraftAccepted(draft);
  }

  lemma CreatePreservesValidStore(st: OrderStore, data: CreateOrderInput, userId: string)
    requires ValidStore(st)
    ensures ValidStore(CreateOrder(st, data, userId).store)
  {
  }

  // ---------------------------------------------------------------------------
  // getOrders

  predicate StateFilterApplies(state: Option<string>) {
    state.Some? && state.value != ""
  }

  /** The query of a listing: the caller's ACTIVE orders, of the given state when a
      non-empty state is given. */
  predicate Listed(o: Order, userId: string, state: Option<string>) {
    && o.userId == userId
    && o.status == ACTIVE
    && (StateFilterApplies(state) ==> StateName(o.state) == state.value)
  }

  /** The records matching the query, newest first: exactly the matching records, in
      strictly decreasing creation time when the store holds them oldest first. */
  function Matches(os: seq<Order>, userId: string, state: Option<string>): (r: seq<Order>)
    ensures forall o :: o in r <==> o in os && Listed(o, userId, state)
    ensures OldestFirst(os) ==> NewestFirst(r)
    ensures |r| <= |os|
    decreases |os|
  {
    if |os| == 0 then []
    else
      var last := os[|os| - 1];
      var rest := Matches(os[..|os| - 1], userId, state);
      assert forall o :: o in os <==> o in os[..|os| - 1] || o == last;
      if Listed(last, userId, state) then
        assert OldestFirst(os) ==> forall o :: o in os[..|os| - 1] ==> o.createdAt < last.createdAt;
        [last] + rest
      else rest
  }

  /** `Math.ceil(total / limit)`: the fewest pages of `limit` records that hold `total`. */
  function CeilDiv(total: nat, limit: nat): (q: nat)
    requires limit >= 1
    ensures q * limit >= total
    ensures total > 0 ==> (q - 1) * limit < total
    ensures total == 0 ==> q == 0
  {
    (total + limit - 1) / limit
  }

  function Min(a: int, b: int): int {
    if a <= b then a else b
  }

  datatype Pagination = Pagination(page: int, limit: int, total: nat, pages: nat)

  datatype OrderPage = OrderPage(orders: seq<Order>, pagination: Pagination)

  /** Records passed over before a page: `(page - 1) * limit`. */
  function Skip(page: int, limit: int): nat
    requires page >= 1 && limit >= 1
  {
    (page - 1) * limit
  }

  /** `getOrders` for a page and limit of at least one: the matches newest first, from
      position `Skip(page, limit)` on, at most `limit` of them, with the number of all
      matches and the number of pages they fill. */
  function GetOrders(st: OrderStore, userId: string, page: int, limit: int, state: Option<string>): (r: OrderPage)
    requires page >= 1 && limit >= 1
    ensures var all := Matches(st.orders, userId, state);
            && r.pagination.page == page && r.pagination.limit == limit
            && r.pagination.total == |all|
            && r.pagination.pages == CeilDiv(|all|, limit)
    ensures var all := Matches(st.orders, userId, state);
            var skip := Skip(page, limit);
            && |r.orders| <= limit
            && |r.orders| == (if skip >= |all| then 0 else Min(limit, |all| - skip))
            && (forall k :: 0 <= k < |r.orders| ==> r.orders[k] == all[skip + k])
    ensures forall o :: o in r.orders ==> o in st.orders && Listed(o, userId, state)
    ensures ValidStore(st) ==> NewestFirst(r.orders)
  {
    var all := Matches(st.orders, userId, state);
    var skip := Skip(page, limit);
    var from := Min(skip, |all|);
    var to := Min(skip + limit, |all|);
    OrderPage(all[from..to], Pagination(page, limit, |all|, CeilDiv(|all|, limit)))
  }

  /** A page holds records exactly when it is one of the counted pages. */
  lemma PageNonEmptyIff(st: OrderStore, userId: string, page: int, limit: int, state: Option<string>)
    requires page >= 1 && limit >= 1
    ensures var r := GetOrders(st, userId, page, limit, state);
            |r.orders| > 0 <==> page <= r.pagination.pages
  {
    var r := GetOrders(st, userId, page, limit, state);
    var pages := r.pagination.pages;
    if page - 1 >= pages {
      // Skip(page, limit) >= pages * limit >= total: past the end.
      MulMonotone(pages, page - 1, limit);
    } else {
      // Skip(page, limit) <= (pages - 1) * limit < total: inside.
      MulMonotone(page - 1, pages - 1, limit);
    }
  }

  lemma MulMonotone(a: int, b: int, c: nat)
    requires a <= b
    ensures a * c <= b * c
  {
  }

  /** Every matching record is on the page its position says: position k is entry
      `k % limit` of page `k / limit + 1`. */
  lemma MatchOnItsPage(st: OrderStore, userId: string, limit: int, state: Option<string>, k: nat)
    requires limit >= 1
    requires k < |Matches(st.orders, userId, state)|
    ensures var r := GetOrders(st, userId, k / limit + 1, limit, state);
            k % limit < |r.orders| && r.orders[k % limit] == Matches(st.orders, userId, state)[k]
  {
    DivMod(k, limit);
    PageEntry(st, userId, k / limit + 1, limit, state, k % limit);
  }

  /** Entry `m` of a page, for `m` below the limit, is the match `m` places past the skip,
      when there is such a match. */
  lemma PageEntry(st: OrderStore, userId: string, page: int, limit: int, state: Option<string>, m: nat)
    requires page >= 1 && limit >= 1 && m < limit
    requires Skip(page, limit) + m < |Matches(st.orders, userId, state)|
    ensures var r := GetOrders(st, userId, page, limit, state);
            m < |r.orders| && r.orders[m] == Matches(st.orders, userId, state)[Skip(page, limit) + m]
  {
  }

  /** Position k lies `k % limit` places past the skip of page `k / limit + 1`. */
  lemma DivMod(k: nat, limit: int)
    requires limit >= 1
    ensures k / limit + 1 >= 1 && 0 <= k % limit < limit
    ensures Skip(k / limit + 1, limit) + k % limit == k
  {
    assert (k / limit) * limit + k % limit == k;
  }

  // ---------------------------------------------------------------------------
  // getOrderById

  /** The pair a lookup is scoped by: the record's identifier and its owner. */
  predicate Addressed(o: Order, id: string, userId: string) {
    NatToString(o.id) == id && o.userId == userId
  }

  /** The position of the first record with that identifier and owner. */
  function FindOwned(os: seq<Order>, id: string, userId: string): (r: Option<nat>)
    ensures r.None? <==> forall j :: 0 <= j < |os| ==> !Addressed(os[j], id, userId)
    ensures r.Some? ==> r.value < |os| && Addressed(os[r.value], id, userId)
    ensures r.Some? ==> forall j :: 0 <= j < r.value ==> !Addressed(os[j], id, userId)
  {
    if |os| == 0 then None
    else if Addressed(os[0], id, userId) then Some(0)
    else match FindOwned(os[1..], id, userId)
      case None => None
      case Some(k) => Some(k + 1)
  }

  /** `getOrderById`: the caller's record with that identifier, or "Order not found"
      when there is none, whether the identifier is unknown or owned by someone else. */
  function GetOrderById(st: OrderStore, id: string, userId: string): (r: Result<Order>)
    ensures r.Err? <==> forall j :: 0 <= j < |st.orders| ==> !Addressed(st.orders[j], id, userId)
    ensures r.Err? ==> r.message == NotFound
    ensures r.Ok? ==> r.value in st.orders && Addressed(r.value, id, userId)
  {
    match FindOwned(st.orders, id, userId)
    case None => Err(NotFound)
    case Some(i) => Ok(st.orders[i])
  }

  /** The caller's own records, in store order. */
  function Owned(os: seq<Order>, userId: string): (r: seq<Order>)
    ensures forall o :: o in r <==> o in os && o.userId == userId
  {
    if |os| == 0 then []
    else (if os[0].userId == userId then [os[0]] else []) + Owned(os[1..], userId)
  }

  /** The record a lookup finds, if any. */
  function FoundOwned(os: seq<Order>, id: string, userId: string): Option<Order> {
    match FindOwned(os, id, userId)
    case None => None
    case Some(i) => Some(os[i])
  }

  /** One step of the lookup: the head if it is addressed, else the lookup of the tail. */
  lemma FoundOwnedStep(os: seq<Order>, id: string, userId: string)
    requires |os| > 0
    ensures FoundOwned(os, id, userId)
              == if Addressed(os[0], id, userId) then Some(os[0]) else FoundOwned(os[1..], id, userId)
  {
    if !Addressed(os[0], id, userId) {
      match FindOwned(os[1..], id, userId)
      case None =>
      case Some(k) => assert os[k + 1] == os[1..][k];
    }
  }

  /** A lookup finds the same record among the caller's own records as in the whole store. */
  lemma {:induction false} LookupSeesOwnedOnly(os: seq<Order>, id: string, userId: string)
    ensures FoundOwned(os, id, userId) == FoundOwned(Owned(os, userId), id, userId)
    decreases |os|
  {
    if |os| > 0 {
      LookupSeesOwnedOnly(os[1..], id, userId);
      var rest := Owned(os[1..], userId);
      FoundOwnedStep(os, id, userId);
      if os[0].userId == userId {
        var owned := [os[0]] + rest;
        assert Owned(os, userId) == owned;
        assert owned[1..] == rest;
        FoundOwnedStep(owned, id, userId);
      } else {
        assert Owned(os, userId) == rest;
      }
    }
  }

  /** No information about other users' records leaks through a lookup: two stores
      holding the same records of the caller answer every lookup alike. */
  lemma LookupIgnoresOtherOwners(st1: OrderStore, st2: OrderStore, id: string, userId: string)
    requires Owned(st1.orders, userId) == Owned(st2.orders, userId)
    ensures GetOrderById(st1, id, userId) == GetOrderById(st2, id, userId)
  {
    LookupSeesOwnedOnly(st1.orders, id, userId);
    LookupSeesOwnedOnly(st2.orders, id, userId);
  }

  // ---------------------------------------------------------------------------
  // advanceOrderState

  /** Position of a state along the lifecycle. */
  function Rank(s: OrderState): nat {
    match s
    case CREATED => 0
    case ANALYSIS => 1
    case COMPLETED => 2
  }

  /** The transition table: one step forward along the lifecycle; none from COMPLETED. */
  function Next(s: OrderState): (n: Option<OrderState>)
    ensures n.None? <==> s == COMPLETED
    ensures n.Some? ==> Rank(n.value) == Rank(s) + 1
  {
    match s
    case CREATED => Some(ANALYSIS)
    case ANALYSIS => Some(COMPLETED)
    case COMPLETED => None
  }

  /** The store after advancing record `i` to `o`: same length and counter, record `i`
      replaced, every other record untouched. */
  predicate ChangedOnlyAt(before: OrderStore, after: OrderStore, i: nat, o: Order) {
    && i < |before.orders|
    && |after.orders| == |before.orders|
    && after.clock == before.clock
    && after.orders[i] == o
    && (forall j :: 0 <= j < |before.orders| && j != i ==> after.orders[j] == before.orders[j])
  }

  function AdvanceOrderState(st: OrderStore, id: string, userId: string): (r: Step<Order>)
    ensures r.result.Err? ==> r.store == st
    ensures r.result == Err(NotFound) <==> GetOrderById(st, id, userId).Err?
    ensures r.result == Err(AlreadyCompleted) <==>
              GetOrderById(st, id, userId).Ok? && GetOrderById(st, id, userId).value.state == COMPLETED
    ensures r.result.Ok? <==>
              GetOrderById(st, id, userId).Ok? && GetOrderById(st, id, userId).value.state != COMPLETED
    ensures r.result.Err? ==> r.result.message in {NotFound, AlreadyCompleted}
    ensures r.result.Ok? ==>
              var found := GetOrderById(st, id, userId).value;
              && Rank(r.result.value.state) == Rank(found.state) + 1
              && Some(r.result.value.state) == Next(found.state)
              && r.result.value == found.(state := r.result.value.state)
              && ChangedOnlyAt(st, r.store, FindOwned(st.orders, id, userId).value, r.result.value)
  {
    match FindOwned(st.orders, id, userId)
    case None => Step(Err(NotFound), st)
    case Some(i) =>
      match Next(st.orders[i].state)
      case None => Step(Err(AlreadyCompleted), st)
      case Some(n) =>
        var o := st.orders[i].(state := n);
        Step(Ok(o), st.(orders := st.orders[i := o]))
  }

  lemma AdvancePreservesValidStore(st: OrderStore, id: string, userId: string)
    requires ValidStore(st)
    ensures ValidStore(AdvanceOrderState(st, id, userId).store)
  {
    var r := AdvanceOrderState(st, id, userId);
    if r.result.Ok? {
      var i := FindOwned(st.orders, id, userId).value;
      assert forall j :: 0 <= j < |st.orders| ==>
        r.store.orders[j].id == st.orders[j].id && r.store.orders[j].createdAt == st.orders[j].createdAt;
    }
  }

  /** A freshly created order walks the lifecycle one step per call: ANALYSIS, then
      COMPLETED, then the third call is refused and changes nothing. */
  lemma CreatedOrderLifecycle(st: OrderStore, data: CreateOrderInput, userId: string)
    requires ValidStore(st)
    requires CreateOrder(st, data, userId).result.Ok?
    ensures var s0 := CreateOrder(st, data, userId).store;
            var id := NatToString(st.clock);
            var a1 := AdvanceOrderState(s0, id, userId);
            var a2 := AdvanceOrderState(a1.store, id, userId);
            var a3 := AdvanceOrderState(a2.store, id, userId);
            && a1.result.Ok? && a1.result.value.state == ANALYSIS
            && a2.result.Ok? && a2.result.value.state == COMPLETED
            && a3.result == Err(AlreadyCompleted) && a3.store == a2.store
  {
    var s0 := CreateOrder(st, data, userId).store;
    var id := NatToString(st.clock);
    var n := |st.orders|;
    NatToStringInjective(st.clock);
    assert forall j :: 0 <= j < n ==> !Addressed(s0.orders[j], id, userId);
    assert s0.orders[n] == CreateOrder(st, data, userId).result.value;
    assert Addressed(s0.orders[n], id, userId);
    assert FindOwned(s0.orders, id, userId) == Some(n);
    AdvanceKeepsPosition(s0, id, userId, n);
    var a1 := AdvanceOrderState(s0, id, userId);
    AdvanceKeepsPosition(a1.store, id, userId, n);
  }

  /** Advancing leaves the addressed record where it was, still addressed. */
  lemma AdvanceKeepsPosition(st: OrderStore, id: string, userId: string, i: nat)
    requires FindOwned(st.orders, id, userId) == Some(i)
    ensures var r := AdvanceOrderState(st, id, userId);
            && FindOwned(r.store.orders, id, userId) == Some(i)
            && (r.result.Ok? ==> r.store.orders[i] == r.result.value)
            && (r.result.Ok? ==> r.result.value.state == Next(st.orders[i].state).value)
  {
    var r := AdvanceOrderState(st, id, userId);
    if r.result.Ok? {
      assert Addressed(r.store.orders[i], id, userId);
    }
  }
}
