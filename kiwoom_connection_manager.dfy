/**
 * The real-time subscription registry of the Kiwoom connection manager: which
 * downstream client wants which stock, which upstream subscription group each
 * stock was given, and the REG / REMOVE control frames the manager sends to the
 * Kiwoom feed when a stock gains its first or loses its last subscriber.
 *
 * Each public method runs under the manager's single lock in the original, so
 * each is one atomic step here. The upstream socket is not modelled: whether a
 * frame is sent depends on the parameter `connected` (the manager is running
 * and its socket is open), and a sent frame is an append to the ghost log `sent`.
 */
module Kiwoom {
  import opened Optional
  import opened Text

  /**
   * A control frame for the feed. `Reg` carries the fixed fields `refresh = "1"` and
   * `type = ["0B"]` besides the group and the one item it registers.
   */
  datatype Frame =
    | Reg(grpNo: string, item: string)
    | Remove(grpNo: string)

  /** The group id made from counter value `n`: its decimal form, left-padded with '0' to four characters. */
  function GroupId(n: nat): string {
    ZFill(Decimal(n), 4)
  }

  /**
   * A group id is a digit string of at least four characters whose value is the
   * counter it came from; it has exactly four characters only while the counter is
   * below 10000 (nothing caps the counter, so the four-digit format is not enforced).
   */
  lemma GroupIdFormat(n: nat)
    ensures |GroupId(n)| >= 4
    ensures |GroupId(n)| == 4 <==> n < 10000
    ensures forall k :: 0 <= k < |GroupId(n)| ==> IsDigit(GroupId(n)[k])
    ensures DecimalValue(GroupId(n)) == n
  {
    var d := Decimal(n);
    DecimalDigits(n);
    if |d| < 4 {
      assert GroupId(n) == Zeros(4 - |d|) + d;
      LeadingZerosValue(4 - |d|, d);
    }
    DecimalRoundTrip(n);
    DecimalWidth(n, 4);
    assert Pow10(4) == 10000;
  }

  /** Distinct counter values give distinct group ids. */
  lemma GroupIdInjective(m: nat, n: nat)
    requires m != n
    ensures GroupId(m) != GroupId(n)
  {
    GroupIdFormat(m);
    GroupIdFormat(n);
  }

  /**
   * `g` looks like a group id the counter handed out before reaching `next`: at least
   * four characters, a value below `next`, and exactly four characters when that value
   * is below 10000.
   */
  predicate IssuedBefore(g: string, next: nat) {
    && |g| >= 4
    && 0 <= DecimalValue(g) < next
    && (DecimalValue(g) < 10000 ==> |g| == 4)
  }

  /** Every group id handed out before the counter reached `next` passes `IssuedBefore`. */
  lemma GroupIdIssuedBefore(n: nat, next: nat)
    requires n < next
    ensures IssuedBefore(GroupId(n), next)
  {
    GroupIdFormat(n);
  }


  /**
   * The manager's registry as a value. `subs` maps a stock code to its clients,
   * `stockToGrp` a stock code to its subscription group, `grpToStock` a group to the
   * value stored for it, and `next` is the group counter. `owner` is bookkeeping that
   * the code does not keep: the stock each live group was issued for, which is what
   * the reverse map evidently means to hold.
   */
  datatype Registry<C> = Registry(
    subs: map<string, set<C>>,
    stockToGrp: map<string, string>,
    grpToStock: map<string, string>,
    owner: map<string, string>,
    next: nat)

  /**
   * The registry invariant: every subscriber set is non-empty; exactly the subscribed
   * stocks have a group; the reverse map is keyed by exactly the live groups and (as
   * the code writes it) maps each group to itself; `stockToGrp` and `owner` are inverse
   * to each other, so no two stocks share a group; and every live group was issued by
   * the counter.
   */
  ghost predicate Consistent<C>(r: Registry<C>) {
    && (forall s :: s in r.subs ==> r.subs[s] != {})
    && (forall s :: s in r.subs <==> s in r.stockToGrp)
    && (forall g :: g in r.grpToStock <==> g in r.owner)
    && (forall g :: g in r.grpToStock ==> r.grpToStock[g] == g)
    && (forall s :: s in r.stockToGrp ==> r.stockToGrp[s] in r.owner && r.owner[r.stockToGrp[s]] == s)
    && (forall g :: g in r.owner ==> r.owner[g] in r.stockToGrp && r.stockToGrp[r.owner[g]] == g && IssuedBefore(g, r.next))
  }

  /** The empty registry of a new manager. */
  function EmptyRegistry<C>(): (r: Registry<C>)
    ensures Consistent(r)
  {
    Registry(map[], map[], map[], map[], 0)
  }

  /** In a consistent registry the reverse map is keyed by exactly the groups in use, and no two stocks share a group. */
  lemma ConsistentGroups<C>(r: Registry<C>)
    requires Consistent(r)
    ensures r.grpToStock.Keys == r.stockToGrp.Values
    ensures forall s, t :: s in r.stockToGrp && t in r.stockToGrp && s != t ==> r.stockToGrp[s] != r.stockToGrp[t]
  {
    forall g | g in r.grpToStock ensures g in r.stockToGrp.Values {
      assert r.stockToGrp[r.owner[g]] == g;
    }
  }

  /** The next group id is not in use: the counter only grows, so no group id is handed out twice. */
  lemma FreshGroupUnused<C>(r: Registry<C>)
    requires Consistent(r)
    ensures GroupId(r.next) !in r.stockToGrp.Values && GroupId(r.next) !in r.grpToStock && GroupId(r.next) !in r.owner
  {
    var g := GroupId(r.next);
    GroupIdFormat(r.next);
    assert g !in r.owner by {
      forall h | h in r.owner ensures h != g {
        assert IssuedBefore(h, r.next);
      }
    }
    assert g !in r.stockToGrp.Values by {
      forall s | s in r.stockToGrp ensures r.stockToGrp[s] != g {
        assert r.stockToGrp[s] in r.owner;
      }
    }
  }

  /** `subscriptions[stock]` of the default dictionary: the empty set for a stock nobody subscribed to. */
  function Subscribers<C>(r: Registry<C>, stock: string): set<C> {
    if stock in r.subs then r.subs[stock] else {}
  }

  /**
   * `subscribe`: `c` joins the subscribers of `stock`. A stock that had none gets the
   * next group id, stored against the stock and, as written, against itself in the
   * reverse map; the counter advances.
   */
  function SubscribeNext<C>(r: Registry<C>, c: C, stock: string): Registry<C> {
    var current := Subscribers(r, stock);
    var subs := r.subs[stock := current + {c}];
    if current != {} then r.(subs := subs)
    else
      var g := GroupId(r.next);
      Registry(subs, r.stockToGrp[stock := g], r.grpToStock[g := g], r.owner[g := stock], r.next + 1)
  }

  /** The frame `subscribe` sends on a live connection: one REG for a first subscription, else nothing. */
  function SubscribeFrames<C>(r: Registry<C>, stock: string): seq<Frame> {
    if Subscribers(r, stock) != {} then [] else [Reg(GroupId(r.next), BeforeDot(stock))]
  }

  /** Subscribing keeps the registry consistent. */
  lemma SubscribeKeepsConsistent<C>(r: Registry<C>, c: C, stock: string)
    requires Consistent(r)
    ensures Consistent(SubscribeNext(r, c, stock))
  {
    if stock !in r.subs {
      FirstSubscriptionConsistent(r, c, stock);
    }
  }

  /** A first subscription registers the stock under a fresh group id the advanced counter has issued, which keeps the registry consistent. */
  lemma FirstSubscriptionConsistent<C>(r: Registry<C>, c: C, stock: string)
    requires Consistent(r) && stock !in r.subs
    ensures Consistent(SubscribeNext(r, c, stock))
  {
    var g := GroupId(r.next);
    FreshGroupUnused(r);
    GroupIdIssuedBefore(r.next, r.next + 1);
    var r' := SubscribeNext(r, c, stock);
    assert r' == Registry(r.subs[stock := {} + {c}], r.stockToGrp[stock := g], r.grpToStock[g := g], r.owner[g := stock], r.next + 1);
    forall h | h in r'.owner
      ensures r'.owner[h] in r'.stockToGrp && r'.stockToGrp[r'.owner[h]] == h && IssuedBefore(h, r'.next)
    {
      if h != g {
        assert IssuedBefore(h, r.next);
      }
    }
  }

  /**
   * What `subscribe` does: `c` is added to the stock's subscribers and nothing else
   * changes for other stocks. A first subscription takes a group id that is in use
   * nowhere, records it for the stock, maps it to itself in the reverse map, advances
   * the counter and emits one REG frame for the code up to its first '.'; a later
   * subscription changes no group and emits nothing.
   */
  lemma SubscribeEffect<C>(r: Registry<C>, c: C, stock: string)
    requires Consistent(r)
    ensures var r' := SubscribeNext(r, c, stock);
      && stock in r'.subs && r'.subs[stock] == Subscribers(r, stock) + {c}
      && (forall s :: s != stock ==> (s in r'.subs <==> s in r.subs))
      && (forall s :: s != stock && s in r.subs ==> r'.subs[s] == r.subs[s])
    ensures Subscribers(r, stock) == {} <==> stock !in r.subs
    ensures stock in r.subs ==>
      var r' := SubscribeNext(r, c, stock);
      && r'.stockToGrp == r.stockToGrp && r'.grpToStock == r.grpToStock && r'.next == r.next
      && SubscribeFrames(r, stock) == []
    ensures stock !in r.subs ==>
      var r' := SubscribeNext(r, c, stock);
      var g := GroupId(r.next);
      && g !in r.stockToGrp.Values && g !in r.grpToStock
      && r'.stockToGrp == r.stockToGrp[stock := g]
      && r'.grpToStock == r.grpToStock[g := g]
      && r'.next == r.next + 1
      && SubscribeFrames(r, stock) == [Reg(g, BeforeDot(stock))]
  {
    FreshGroupUnused(r);
  }

  /** Subscribing a client that is already subscribed changes nothing and sends nothing. */
  lemma SubscribeIdempotent<C>(r: Registry<C>, c: C, stock: string)
    requires c in Subscribers(r, stock)
    ensures SubscribeNext(r, c, stock) == r && SubscribeFrames(r, stock) == []
  {
    assert Subscribers(r, stock) + {c} == Subscribers(r, stock);
  }

  /**
   * `unsubscribe`: nothing happens unless `c` subscribes to `stock`. Otherwise `c`
   * leaves; when it was the last subscriber the stock is deleted, its group popped
   * from `stockToGrp` and, if there was a non-empty one, deleted from the reverse map.
   */
  function UnsubscribeNext<C>(r: Registry<C>, c: C, stock: string): Registry<C> {
    var current := Subscribers(r, stock);
    if c !in current then r
    else
      var remaining := current - {c};
      if remaining != {} then r.(subs := r.subs[stock := remaining])
      else if stock !in r.stockToGrp then r.(subs := r.subs - {stock})
      else
        var g := r.stockToGrp[stock];
        if g == "" then r.(subs := r.subs - {stock}, stockToGrp := r.stockToGrp - {stock})
        else Registry(r.subs - {stock}, r.stockToGrp - {stock}, r.grpToStock - {g}, r.owner - {g}, r.next)
  }

  /** The frame `unsubscribe` sends on a live connection: one REMOVE when a non-empty group is dropped. */
  function UnsubscribeFrames<C>(r: Registry<C>, c: C, stock: string): seq<Frame> {
    if Subscribers(r, stock) == {c} && stock in r.stockToGrp && r.stockToGrp[stock] != ""
    then [Remove(r.stockToGrp[stock])]
    else []
  }

  /** Unsubscribing keeps the registry consistent. */
  lemma UnsubscribeKeepsConsistent<C>(r: Registry<C>, c: C, stock: string)
    requires Consistent(r)
    ensures Consistent(UnsubscribeNext(r, c, stock))
  {
    if stock in r.subs && r.subs[stock] - {c} == {} {
      assert IssuedBefore(r.stockToGrp[stock], r.next);
    }
  }

  /**
   * What `unsubscribe` does, case by case: nothing for a client that is not subscribed;
   * for one of several subscribers, only that stock's set shrinks; for the last
   * subscriber, the stock and its group disappear from all three maps and one REMOVE
   * frame names that group (in a consistent registry the stock always has a non-empty
   * group here, so the code's `pop(..., None)` and `if grp_no:` tests always pass).
   */
  lemma UnsubscribeEffect<C>(r: Registry<C>, c: C, stock: string)
    requires Consistent(r)
    ensures c !in Subscribers(r, stock) ==>
      UnsubscribeNext(r, c, stock) == r && UnsubscribeFrames(r, c, stock) == []
    ensures c in Subscribers(r, stock) && Subscribers(r, stock) != {c} ==>
      var r' := UnsubscribeNext(r, c, stock);
      && r.subs[stock] - {c} != {}
      && r' == r.(subs := r.subs[stock := r.subs[stock] - {c}])
      && UnsubscribeFrames(r, c, stock) == []
    ensures Subscribers(r, stock) == {c} ==>
      var r' := UnsubscribeNext(r, c, stock);
      && stock in r.stockToGrp
      && var g := r.stockToGrp[stock];
      && g != ""
      && r'.subs == r.subs - {stock}
      && r'.stockToGrp == r.stockToGrp - {stock}
      && r'.grpToStock == r.grpToStock - {g}
      && g !in r'.stockToGrp.Values
      && r'.next == r.next
      && UnsubscribeFrames(r, c, stock) == [Remove(g)]
  {
    if Subscribers(r, stock) == {c} {
      var g := r.stockToGrp[stock];
      assert IssuedBefore(g, r.next);
      ConsistentGroups(r);
    } else if c in Subscribers(r, stock) {
      assert r.subs[stock] - {c} != {} by {
        var x :| x in r.subs[stock] && x != c;
      }
    }
  }

  /**
   * Unsubscribing right after subscribing undoes the subscription: the registry is as
   * before except that a first subscription used up one counter value, and on a live
   * connection the feed saw a REG and then a REMOVE for the same group.
   */
  lemma UnsubscribeUndoesSubscribe<C>(r: Registry<C>, c: C, stock: string)
    requires Consistent(r)
    requires c !in Subscribers(r, stock)
    ensures UnsubscribeNext(SubscribeNext(r, c, stock), c, stock) ==
      if stock in r.subs then r else r.(next := r.next + 1)
    ensures stock !in r.subs ==>
      var g := GroupId(r.next);
      SubscribeFrames(r, stock) + UnsubscribeFrames(SubscribeNext(r, c, stock), c, stock) ==
        [Reg(g, BeforeDot(stock)), Remove(g)]
  {
    if stock in r.subs {
      UndoLaterSubscription(r, c, stock);
    } else {
      FreshGroupUnused(r);
      GroupIdFormat(r.next);
      UndoFirstSubscription(r, c, stock);
      UndoFirstSubscriptionFrames(r, c, stock);
    }
  }

  /** `UnsubscribeUndoesSubscribe` for a stock that already had subscribers. */
  lemma UndoLaterSubscription<C>(r: Registry<C>, c: C, stock: string)
    requires stock in r.subs && c !in r.subs[stock] && r.subs[stock] != {}
    ensures UnsubscribeNext(SubscribeNext(r, c, stock), c, stock) == r
  {
    var r2 := UnsubscribeNext(SubscribeNext(r, c, stock), c, stock);
    assert r.subs[stock] + {c} - {c} == r.subs[stock];
    assert r2.subs == r.subs;
  }

  /** `UnsubscribeUndoesSubscribe` for a first subscription, whose group id is fresh. */
  lemma UndoFirstSubscription<C>(r: Registry<C>, c: C, stock: string)
    requires stock !in r.subs && stock !in r.stockToGrp
    requires GroupId(r.next) !in r.grpToStock && GroupId(r.next) !in r.owner && GroupId(r.next) != ""
    ensures UnsubscribeNext(SubscribeNext(r, c, stock), c, stock) == r.(next := r.next + 1)
  {
    var g := GroupId(r.next);
    assert {c} - {c} == {};
    AddThenRemove(r.subs, stock, {c});
    AddThenRemove(r.stockToGrp, stock, g);
    AddThenRemove(r.grpToStock, g, g);
    AddThenRemove(r.owner, g, stock);
  }

  /** Adding a new key and removing it again gives back the map. */
  lemma AddThenRemove<K, V>(m: map<K, V>, k: K, v: V)
    requires k !in m
    ensures m[k := v] - {k} == m
  {
  }

  /** The frames of a first subscription undone at once: a REG and a REMOVE for the same group. */
  lemma UndoFirstSubscriptionFrames<C>(r: Registry<C>, c: C, stock: string)
    requires stock !in r.subs && GroupId(r.next) != ""
    ensures SubscribeFrames(r, stock) + UnsubscribeFrames(SubscribeNext(r, c, stock), c, stock) ==
      [Reg(GroupId(r.next), BeforeDot(stock)), Remove(GroupId(r.next))]
  {
  }

  /**
   * The tick lookup of the reader task: look the tick's group up in the reverse map;
   * if that gives a non-empty stock key that has subscribers, all of them; else nobody.
   */
  function TickRecipients<C>(r: Registry<C>, grp: Option<string>): set<C> {
    if grp.Some? && grp.value in r.grpToStock && r.grpToStock[grp.value] != "" && r.grpToStock[grp.value] in r.subs
    then r.subs[r.grpToStock[grp.value]]
    else {}
  }

  /**
   * Because the reverse map sends each group to itself, a tick reaches subscribers
   * only when its group string is itself a subscribed stock key, and then it reaches
   * that key's subscribers, not those of the stock the group was issued for.
   */
  lemma RecipientsOnlyForGroupKeyedStocks<C>(r: Registry<C>, g: string)
    requires Consistent(r)
    ensures TickRecipients(r, Some(g)) != {} <==> g in r.grpToStock && g in r.subs
    ensures g in r.grpToStock && g in r.subs ==> TickRecipients(r, Some(g)) == r.subs[g]
  {
    if g in r.grpToStock {
      assert IssuedBefore(g, r.next);
    }
  }

  /**
   * With six-character stock codes and fewer than 10000 groups issued, every group id
   * has four characters, is never a stock key, and so no tick reaches anybody.
   */
  lemma SixDigitCodesReceiveNoTicks<C>(r: Registry<C>, grp: Option<string>)
    requires Consistent(r)
    requires r.next <= 10000
    requires forall s :: s in r.subs ==> |s| == 6
    ensures TickRecipients(r, grp) == {}
  {
    if grp.Some? {
      RecipientsOnlyForGroupKeyedStocks(r, grp.value);
      if grp.value in r.grpToStock {
        assert IssuedBefore(grp.value, r.next);
      }
    }
  }

  /** No stock occurs twice in `xs`. */
  predicate Distinct(xs: seq<string>) {
    forall i, j :: 0 <= i < j < |xs| ==> xs[i] != xs[j]
  }

  /** Appending a new stock to a list without repeats gives a list without repeats. */
  lemma DistinctSnoc(xs: seq<string>, s: string)
    requires Distinct(xs) && s !in xs
    ensures Distinct(xs + [s])
  {
    forall i, j | 0 <= i < j < |xs| + 1 ensures (xs + [s])[i] != (xs + [s])[j] {
      if j == |xs| {
        assert (xs + [s])[i] == xs[i];
      }
    }
  }

  /** Filtering a list without repeats gives a list without repeats. */
  lemma {:induction false} DroppedDistinct<C>(subs: map<string, set<C>>, c: C, order: seq<string>)
    requires Distinct(order)
    ensures Distinct(Dropped(subs, c, order))
  {
    if order != [] {
      var xs := order[..|order| - 1];
      var s := order[|order| - 1];
      DroppedDistinct(subs, c, xs);
      if s in subs && subs[s] == {c} {
        assert s !in xs;
        DistinctSnoc(Dropped(subs, c, xs), s);
      }
    }
  }

  /** The stocks of `xs` as a set. */
  function Elements(xs: seq<string>): set<string> {
    set s | s in xs
  }

  /**
   * `handle_disconnect`, stated as the sequence of `unsubscribe` calls it makes: `c`
   * leaves the stocks of `order` one after the other.
   */
  function DisconnectNext<C>(r: Registry<C>, c: C, order: seq<string>): Registry<C>
    decreases |order|
  {
    if order == [] then r
    else UnsubscribeNext(DisconnectNext(r, c, order[..|order| - 1]), c, order[|order| - 1])
  }

  /** The frames those `unsubscribe` calls send on a live connection, in order. */
  function DisconnectFrames<C>(r: Registry<C>, c: C, order: seq<string>): seq<Frame>
    decreases |order|
  {
    if order == [] then []
    else
      var before := order[..|order| - 1];
      DisconnectFrames(r, c, before) + UnsubscribeFrames(DisconnectNext(r, c, before), c, order[|order| - 1])
  }

  /** The stocks of `order`, in order, whose only subscriber is `c`. */
  function Dropped<C>(subs: map<string, set<C>>, c: C, order: seq<string>): (d: seq<string>)
    ensures forall s :: s in d <==> s in order && s in subs && subs[s] == {c}
    decreases |order|
  {
    if order == [] then []
    else
      var s := order[|order| - 1];
      Dropped(subs, c, order[..|order| - 1]) + (if s in subs && subs[s] == {c} then [s] else [])
  }

  /** The subscriptions once `c` has left every stock in `done`: emptied stocks are gone. */
  function Detach<C>(subs: map<string, set<C>>, c: C, done: set<string>): map<string, set<C>>
  {
    map s | s in subs && (s !in done || subs[s] - {c} != {}) :: if s in done then subs[s] - {c} else subs[s]
  }

  /** One more stock handled: the subscriptions step from `done` to `done + {s}` the way `unsubscribe` moves them. */
  lemma DetachStep<C>(subs: map<string, set<C>>, c: C, done: set<string>, s: string)
    requires s in subs && s !in done && c in subs[s]
    ensures subs[s] != {c} ==>
      Detach(subs, c, done + {s}) == Detach(subs, c, done)[s := subs[s] - {c}]
    ensures subs[s] == {c} ==>
      Detach(subs, c, done + {s}) == Detach(subs, c, done) - {s}
  {
    if subs[s] == {c} {
      assert subs[s] - {c} == {};
    } else {
      assert subs[s] - {c} != {} by {
        var x :| x in subs[s] && x != c;
      }
    }
  }

  /** Detaching from the stocks the client is in is detaching from all stocks. */
  lemma DetachSnapshot<C>(subs: map<string, set<C>>, c: C, snapshot: set<string>)
    requires forall s :: s in subs ==> subs[s] != {}
    requires snapshot == set s | s in subs && c in subs[s]
    ensures Detach(subs, c, snapshot) == Detach(subs, c, subs.Keys)
  {
    forall s | s in subs && s !in snapshot ensures subs[s] - {c} == subs[s] {
    }
  }

  /** After a client has left every stock, it is in no subscriber set and every other client's memberships are as before. */
  lemma DetachAllMemberships<C>(subs: map<string, set<C>>, c: C)
    requires forall s :: s in subs ==> subs[s] != {}
    ensures var after := Detach(subs, c, subs.Keys);
      && (forall s :: s in after ==> c !in after[s] && after[s] != {})
      && (forall s, d :: d != c ==> (s in after && d in after[s] <==> s in subs && d in subs[s]))
      && (forall s :: s in subs && s !in after <==> s in subs && subs[s] == {c})
  {
    var after := Detach(subs, c, subs.Keys);
    forall s | s in subs
      ensures s !in after <==> subs[s] == {c}
    {
      if subs[s] - {c} == {} {
        var x :| x in subs[s];
        assert subs[s] == {c};
      }
    }
  }

  /** The REMOVE frames for the groups of `stocks`, in that order (a stock without a group has none). */
  function RemoveFrames(stocks: seq<string>, stockToGrp: map<string, string>): seq<Frame>
  {
    if stocks == [] then []
    else
      var s := stocks[|stocks| - 1];
      RemoveFrames(stocks[..|stocks| - 1], stockToGrp) + (if s in stockToGrp then [Remove(stockToGrp[s])] else [])
  }

  /** One REMOVE frame per stock, the i-th carrying the group of the i-th stock. */
  lemma {:induction false} RemoveFramesAt(stocks: seq<string>, stockToGrp: map<string, string>)
    requires forall i :: 0 <= i < |stocks| ==> stocks[i] in stockToGrp
    ensures |RemoveFrames(stocks, stockToGrp)| == |stocks|
    ensures forall i :: 0 <= i < |stocks| ==> RemoveFrames(stocks, stockToGrp)[i] == Remove(stockToGrp[stocks[i]])
  {
    if stocks != [] {
      var xs, s := stocks[..|stocks| - 1], stocks[|stocks| - 1];
      assert RemoveFrames(stocks, stockToGrp) == RemoveFrames(xs, stockToGrp) + [Remove(stockToGrp[s])];
      RemoveFramesAt(xs, stockToGrp);
    }
  }

  /** The part of the invariant `handle_disconnect` relies on: every subscribed stock has clients and a non-empty group. */
  ghost predicate Registered<C>(r: Registry<C>) {
    forall s :: s in r.subs ==> r.subs[s] != {} && s in r.stockToGrp && r.stockToGrp[s] != ""
  }

  /** A consistent registry is registered: group ids have at least four characters. */
  lemma ConsistentRegistered<C>(r: Registry<C>)
    requires Consistent(r)
    ensures Registered(r)
  {
    forall s | s in r.subs ensures r.stockToGrp[s] != "" {
      assert IssuedBefore(r.stockToGrp[s], r.next);
    }
  }

  /** One `unsubscribe` of a subscribed client, as plain equations on the maps it changes. */
  lemma UnsubscribeMember<C>(r: Registry<C>, c: C, stock: string)
    requires Registered(r)
    requires stock in r.subs && c in r.subs[stock]
    ensures var r' := UnsubscribeNext(r, c, stock);
      && r'.subs == (if r.subs[stock] == {c} then r.subs - {stock} else r.subs[stock := r.subs[stock] - {c}])
      && r'.stockToGrp == (if r.subs[stock] == {c} then r.stockToGrp - {stock} else r.stockToGrp)
      && r'.next == r.next
      && Registered(r')
    ensures UnsubscribeFrames(r, c, stock) == if r.subs[stock] == {c} then [Remove(r.stockToGrp[stock])] else []
  {
    if r.subs[stock] != {c} {
      assert r.subs[stock] - {c} != {} by {
        var x :| x in r.subs[stock] && x != c;
      }
    }
  }

  /** Leaving the stocks of `order` one by one keeps the registry consistent. */
  lemma {:induction false} DisconnectKeepsConsistent<C>(r: Registry<C>, c: C, order: seq<string>)
    requires Consistent(r)
    ensures Consistent(DisconnectNext(r, c, order))
  {
    if order != [] {
      DisconnectKeepsConsistent(r, c, order[..|order| - 1]);
      UnsubscribeKeepsConsistent(DisconnectNext(r, c, order[..|order| - 1]), c, order[|order| - 1]);
    }
  }

  /**
   * Leaving the distinct stocks of `order` one by one leaves the subscriptions at
   * `Detach` of the stocks handled and lets surviving stocks keep their groups.
   */
  lemma {:induction false} DisconnectPrefix<C>(r: Registry<C>, c: C, order: seq<string>)
    requires Registered(r)
    requires Distinct(order)
    requires forall s :: s in order ==> s in r.subs && c in r.subs[s]
    ensures Registered(DisconnectNext(r, c, order))
    ensures DisconnectNext(r, c, order).subs == Detach(r.subs, c, Elements(order))
    ensures forall s :: s in DisconnectNext(r, c, order).stockToGrp ==>
      s in r.stockToGrp && DisconnectNext(r, c, order).stockToGrp[s] == r.stockToGrp[s]
    ensures DisconnectNext(r, c, order).next == r.next
  {
    if order != [] {
      var xs := order[..|order| - 1];
      var s := order[|order| - 1];
      assert forall t :: t in xs ==> t in order;
      DisconnectPrefix(r, c, xs);
      var d := DisconnectNext(r, c, xs);
      assert s !in Elements(xs);
      DetachStep(r.subs, c, Elements(xs), s);
      assert Elements(order) == Elements(xs) + {s};
      UnsubscribeMember(d, c, s);
    }
  }

  /** The frames of leaving the distinct stocks of `order`: one REMOVE, with the stock's group, per stock whose only subscriber was `c`. */
  lemma {:induction false} DisconnectPrefixFrames<C>(r: Registry<C>, c: C, order: seq<string>)
    requires Registered(r)
    requires Distinct(order)
    requires forall s :: s in order ==> s in r.subs && c in r.subs[s]
    ensures DisconnectFrames(r, c, order) == RemoveFrames(Dropped(r.subs, c, order), r.stockToGrp)
  {
    if order != [] {
      var xs := order[..|order| - 1];
      assert forall t :: t in xs ==> t in order;
      DisconnectPrefixFrames(r, c, xs);
      DisconnectLastFrames(r, c, order);
      DisconnectFramesSnoc(r, c, order);
    }
  }

  /** The induction step of `DisconnectPrefixFrames`: one more stock appends its REMOVE frame, if any, to both sides. */
  lemma DisconnectFramesSnoc<C>(r: Registry<C>, c: C, order: seq<string>)
    requires order != [] && forall s :: s in order ==> s in r.stockToGrp && s in r.subs
    requires var xs := order[..|order| - 1];
      DisconnectFrames(r, c, xs) == RemoveFrames(Dropped(r.subs, c, xs), r.stockToGrp)
    requires var s := order[|order| - 1];
      UnsubscribeFrames(DisconnectNext(r, c, order[..|order| - 1]), c, s) ==
        if r.subs[s] == {c} then [Remove(r.stockToGrp[s])] else []
    ensures DisconnectFrames(r, c, order) == RemoveFrames(Dropped(r.subs, c, order), r.stockToGrp)
  {
    var xs := order[..|order| - 1];
    var s := order[|order| - 1];
    var dx := Dropped(r.subs, c, xs);
    var last := UnsubscribeFrames(DisconnectNext(r, c, xs), c, s);
    assert DisconnectFrames(r, c, order) == RemoveFrames(dx, r.stockToGrp) + last;
    if r.subs[s] == {c} {
      assert Dropped(r.subs, c, order) == dx + [s];
      RemoveFramesSnoc(dx, s, r.stockToGrp);
    } else {
      assert Dropped(r.subs, c, order) == dx;
      assert RemoveFrames(dx, r.stockToGrp) + last == RemoveFrames(dx, r.stockToGrp);
    }
  }

  /** The last `unsubscribe` of a disconnect sends a REMOVE, with the stock's original group, exactly when `c` was its only subscriber. */
  lemma DisconnectLastFrames<C>(r: Registry<C>, c: C, order: seq<string>)
    requires Registered(r)
    requires Distinct(order) && order != []
    requires forall s :: s in order ==> s in r.subs && c in r.subs[s]
    ensures var s := order[|order| - 1];
      UnsubscribeFrames(DisconnectNext(r, c, order[..|order| - 1]), c, s) ==
        if r.subs[s] == {c} then [Remove(r.stockToGrp[s])] else []
  {
    var xs := order[..|order| - 1];
    var s := order[|order| - 1];
    assert forall t :: t in xs ==> t in order;
    DisconnectPrefix(r, c, xs);
    var d := DisconnectNext(r, c, xs);
    assert s !in Elements(xs);
    assert s in d.subs && d.subs[s] == r.subs[s] && d.stockToGrp[s] == r.stockToGrp[s];
    UnsubscribeMember(d, c, s);
  }

  /** Appending a stock appends its REMOVE frame. */
  lemma RemoveFramesSnoc(stocks: seq<string>, s: string, stockToGrp: map<string, string>)
    requires forall i :: 0 <= i < |stocks| ==> stocks[i] in stockToGrp
    requires s in stockToGrp
    ensures RemoveFrames(stocks + [s], stockToGrp) == RemoveFrames(stocks, stockToGrp) + [Remove(stockToGrp[s])]
  {
    assert (stocks + [s])[..|stocks|] == stocks;
  }

  /**
   * `handle_disconnect` over a snapshot of the client's stocks: afterwards the client
   * is in no subscriber set, every other client's subscriptions are untouched, and the
   * feed gets exactly one REMOVE for each stock whose only subscriber was the client,
   * carrying that stock's group.
   */
  lemma DisconnectDetaches<C>(r: Registry<C>, c: C, order: seq<string>)
    requires Registered(r)
    requires Distinct(order)
    requires forall s :: s in order <==> s in r.subs && c in r.subs[s]
    ensures DisconnectNext(r, c, order).subs == Detach(r.subs, c, r.subs.Keys)
    ensures forall s :: s in DisconnectNext(r, c, order).subs ==> c !in DisconnectNext(r, c, order).subs[s]
    ensures forall s, x :: x != c ==>
      (s in DisconnectNext(r, c, order).subs && x in DisconnectNext(r, c, order).subs[s] <==> s in r.subs && x in r.subs[s])
    ensures forall s :: s in Dropped(r.subs, c, order) <==> s in r.subs && r.subs[s] == {c}
    ensures Distinct(Dropped(r.subs, c, order))
    ensures DisconnectFrames(r, c, order) == RemoveFrames(Dropped(r.subs, c, order), r.stockToGrp)
  {
    DisconnectPrefix(r, c, order);
    DisconnectPrefixFrames(r, c, order);
    DroppedDistinct(r.subs, c, order);
    assert Elements(order) == set s | s in r.subs && c in r.subs[s];
    DetachSnapshot(r.subs, c, Elements(order));
    DetachAllMemberships(r.subs, c);
  }

  /** The REG frames for `stocks`, in that order, each with the stock's group and its code up to the first '.' (a stock without a group has none). */
  function RegFrames(stocks: seq<string>, stockToGrp: map<string, string>): seq<Frame>
  {
    if stocks == [] then []
    else
      var s := stocks[|stocks| - 1];
      RegFrames(stocks[..|stocks| - 1], stockToGrp) + (if s in stockToGrp then [Reg(stockToGrp[s], BeforeDot(s))] else [])
  }

  /** One REG frame per stock, the i-th carrying the group and the dot-free code of the i-th stock. */
  lemma {:induction false} RegFramesAt(stocks: seq<string>, stockToGrp: map<string, string>)
    requires forall i :: 0 <= i < |stocks| ==> stocks[i] in stockToGrp
    ensures |RegFrames(stocks, stockToGrp)| == |stocks|
    ensures forall i :: 0 <= i < |stocks| ==>
      RegFrames(stocks, stockToGrp)[i] == Reg(stockToGrp[stocks[i]], BeforeDot(stocks[i]))
  {
    if stocks != [] {
      var xs, s := stocks[..|stocks| - 1], stocks[|stocks| - 1];
      assert RegFrames(stocks, stockToGrp) == RegFrames(xs, stockToGrp) + [Reg(stockToGrp[s], BeforeDot(s))];
      RegFramesAt(xs, stockToGrp);
    }
  }

  /**
   * `_resubscribe_all` over the stocks in some order that lists each of them once:
   * every live group is registered again exactly once, under the same group id.
   */
  lemma ResubscribeRegistersEveryGroupOnce<C>(r: Registry<C>, order: seq<string>)
    requires Consistent(r)
    requires Distinct(order)
    requires forall s :: s in order <==> s in r.stockToGrp
    ensures |RegFrames(order, r.stockToGrp)| == |order|
    ensures forall i :: 0 <= i < |order| ==> RegFrames(order, r.stockToGrp)[i].grpNo in r.grpToStock
    ensures forall i, j :: 0 <= i < j < |order| ==> RegFrames(order, r.stockToGrp)[i].grpNo != RegFrames(order, r.stockToGrp)[j].grpNo
    ensures forall g :: g in r.grpToStock ==> exists i :: 0 <= i < |order| && RegFrames(order, r.stockToGrp)[i] == Reg(g, BeforeDot(r.owner[g]))
  {
    RegFramesAt(order, r.stockToGrp);
    ConsistentGroups(r);
    forall g | g in r.grpToStock
      ensures exists i :: 0 <= i < |order| && RegFrames(order, r.stockToGrp)[i] == Reg(g, BeforeDot(r.owner[g]))
    {
      var s := r.owner[g];
      var i :| 0 <= i < |order| && order[i] == s;
      assert RegFrames(order, r.stockToGrp)[i] == Reg(g, BeforeDot(s));
    }
  }

}

module KiwoomManager {
  import opened Optional
  import opened Text
  import opened Kiwoom

  /** Concatenation is associative (a step the frame logs of `HandleDisconnect` and `ResubscribeAll` need). */
  lemma AppendAssoc<T>(a: seq<T>, b: seq<T>, c: seq<T>)
    ensures a + b + c == a + (b + c)
  {
  }

  /** The connection manager's registry (one explicitly constructed instance). */
  class ConnectionManager<Client(==)> {
    /** Stock code to the clients subscribed to it. */
    var subscriptions: map<string, set<Client>>
    /** Stock code to its subscription group. */
    var stockToGrp: map<string, string>
    /** Subscription group to the value the manager stores for it. */
    var grpToStock: map<string, string>
    /** The counter group ids are made from. */
    var nextGrpNo: nat
    /** The stock each live group was issued for (bookkeeping for the proofs). */
    ghost var owner: map<string, string>
    /** Every control frame sent to the feed so far. */
    ghost var sent: seq<Frame>

    /** The registry these fields hold. */
    ghost function State(): Registry<Client>
      reads this`subscriptions, this`stockToGrp, this`grpToStock, this`owner, this`nextGrpNo
    {
      Registry(subscriptions, stockToGrp, grpToStock, owner, nextGrpNo)
    }

    ghost predicate Valid()
      reads this`subscriptions, this`stockToGrp, this`grpToStock, this`owner, this`nextGrpNo
    {
      Consistent(State())
    }

    constructor ()
      ensures Valid() && State() == EmptyRegistry() && sent == []
    {
      subscriptions := map[];
      stockToGrp := map[];
      grpToStock := map[];
      owner := map[];
      nextGrpNo := 0;
      sent := [];
    }

    /** Hands out the group id of the current counter value and advances the counter by one. */
    method GenerateGrpNo() returns (grpNo: string)
      modifies this`nextGrpNo
      ensures grpNo == GroupId(old(nextGrpNo)) && nextGrpNo == old(nextGrpNo) + 1
      ensures |grpNo| == 4 <==> old(nextGrpNo) < 10000
    {
      grpNo := ZFill(Decimal(nextGrpNo), 4);
      GroupIdFormat(nextGrpNo);
      nextGrpNo := nextGrpNo + 1;
    }

    /** `subscribe`; on a live connection a first subscription's REG frame is sent. */
    method Subscribe(client: Client, stock: string, connected: bool)
      requires Valid()
      modifies this
      ensures Valid()
      ensures State() == SubscribeNext(old(State()), client, stock)
      ensures sent == old(sent) + (if connected then SubscribeFrames(old(State()), stock) else [])
    {
      ghost var r0 := State();
      var current := if stock in subscriptions then subscriptions[stock] else {};
      var isFirst := current == {};
      subscriptions := subscriptions[stock := current + {client}];
      if isFirst {
        var grpNo := GenerateGrpNo();
        stockToGrp := stockToGrp[stock := grpNo];
        // The reverse entry maps the group to itself, not to the stock.
        grpToStock := grpToStock[grpNo := grpNo];
        owner := owner[grpNo := stock];
        if connected {
          sent := sent + [Reg(grpNo, BeforeDot(stock))];
        }
        assert subscriptions == r0.subs[stock := current + {client}];
        assert stockToGrp == r0.stockToGrp[stock := grpNo];
        assert grpToStock == r0.grpToStock[grpNo := grpNo];
        assert owner == r0.owner[grpNo := stock];
        assert nextGrpNo == r0.next + 1;
      } else {
        assert State() == r0.(subs := r0.subs[stock := current + {client}]);
      }
      assert State() == SubscribeNext(r0, client, stock);
      assert sent == old(sent) + (if connected then SubscribeFrames(r0, stock) else []);
      SubscribeKeepsConsistent(r0, client, stock);
    }

    /** `unsubscribe`; on a live connection the REMOVE frame of a dropped group is sent. */
    method Unsubscribe(client: Client, stock: string, connected: bool)
      requires Valid()
      modifies this
      ensures Valid()
      ensures State() == UnsubscribeNext(old(State()), client, stock)
      ensures sent == old(sent) + (if connected then UnsubscribeFrames(old(State()), client, stock) else [])
    {
      ghost var r0 := State();
      var current := if stock in subscriptions then subscriptions[stock] else {};
      if client in current {
        var remaining := current - {client};
        if remaining == {} {
          assert current == {client};
          subscriptions := subscriptions - {stock};
          if stock in stockToGrp {
            var grpNo := stockToGrp[stock];
            stockToGrp := stockToGrp - {stock};
            if grpNo != "" {
              grpToStock := grpToStock - {grpNo};
              owner := owner - {grpNo};
              if connected {
                sent := sent + [Remove(grpNo)];
              }
            }
          }
        } else {
          subscriptions := subscriptions[stock := remaining];
        }
      }
      assert State() == UnsubscribeNext(r0, client, stock);
      assert sent == old(sent) + (if connected then UnsubscribeFrames(r0, client, stock) else []);
      UnsubscribeKeepsConsistent(r0, client, stock);
    }

    /**
     * `handle_disconnect`: collects the stocks `client` subscribes to, then unsubscribes
     * it from each in turn; `order` is the order they were handled in.
     *
     * The original holds the manager's lock while it awaits `unsubscribe`, which takes
     * the same non-reentrant lock again, so as written it never completes once the
     * client has a subscription; this method models the sequential effect intended.
     */
    method HandleDisconnect(client: Client, connected: bool) returns (ghost order: seq<string>)
      requires Valid()
      modifies this
      ensures Valid()
      ensures Distinct(order)
      ensures forall s :: s in order <==> s in old(subscriptions) && client in old(subscriptions)[s]
      ensures State() == DisconnectNext(old(State()), client, order)
      ensures sent == old(sent) + (if connected then DisconnectFrames(old(State()), client, order) else [])
    {
      var todo := set s | s in subscriptions && client in subscriptions[s];
      ghost var snapshot := todo;
      order := [];
      while todo != {}
        invariant Valid()
        invariant todo <= snapshot
        invariant Distinct(order)
        invariant forall s :: s in order <==> s in snapshot && s !in todo
        invariant State() == DisconnectNext(old(State()), client, order)
        invariant sent == old(sent) + (if connected then DisconnectFrames(old(State()), client, order) else [])
        decreases todo
      {
        var stock :| stock in todo;
        ghost var r0, r := old(State()), State();
        assert (order + [stock])[..|order|] == order;
        assert DisconnectNext(r0, client, order + [stock]) == UnsubscribeNext(r, client, stock);
        assert DisconnectFrames(r0, client, order + [stock]) ==
          DisconnectFrames(r0, client, order) + UnsubscribeFrames(r, client, stock);
        Unsubscribe(client, stock, connected);
        if connected {
          AppendAssoc(old(sent), DisconnectFrames(r0, client, order), UnsubscribeFrames(r, client, stock));
        }
        order := order + [stock];
        todo := todo - {stock};
      }
    }

    /** `_resubscribe_all`: one REG frame per stock that has a group; `order` is the order sent. */
    method ResubscribeAll() returns (ghost order: seq<string>)
      modifies this`sent
      ensures State() == old(State())
      ensures Distinct(order)
      ensures forall s :: s in order <==> s in stockToGrp
      ensures sent == old(sent) + RegFrames(order, stockToGrp)
    {
      var pending := stockToGrp.Keys;
      order := [];
      while pending != {}
        invariant pending <= stockToGrp.Keys
        invariant forall s :: s in order <==> s in stockToGrp && s !in pending
        invariant Distinct(order)
        invariant sent == old(sent) + RegFrames(order, stockToGrp)
        decreases pending
      {
        var stock :| stock in pending;
        var grpNo := stockToGrp[stock];
        ghost var frame := [Reg(grpNo, BeforeDot(stock))];
        assert (order + [stock])[..|order|] == order;
        assert RegFrames(order + [stock], stockToGrp) == RegFrames(order, stockToGrp) + frame;
        AppendAssoc(old(sent), RegFrames(order, stockToGrp), frame);
        sent := sent + [Reg(grpNo, BeforeDot(stock))];
        order := order + [stock];
        pending := pending - {stock};
      }
    }

    /**
     * The reader task's choice of recipients for a REAL tick whose `grp_no` is `grp`
     * (absent when the message has none): since the reverse map sends a group to itself,
     * a tick reaches someone only when its group string is itself a subscribed stock.
     */
    method Recipients(grp: Option<string>) returns (clients: set<Client>)
      requires Valid()
      ensures clients == TickRecipients(State(), grp)
      ensures clients != {} <==> grp.Some? && grp.value in grpToStock && grp.value in subscriptions
    {
      clients := {};
      if grp.Some? && grp.value in grpToStock {
        var stockCode := grpToStock[grp.value];
        if stockCode != "" && stockCode in subscriptions {
          clients := subscriptions[stockCode];
        }
        RecipientsOnlyForGroupKeyedStocks(State(), grp.value);
      }
    }
  }
}
