/**
 The n + 1 replies that follow a list indication, in any order: the counter is
 the number of described entries, the table is printed once and last, and the
 order leaves no trace.
 */
module PdcJoin {
  import opened Bytes
  import opened Options
  import opened Pdc

  /** A list and the replies to it: `infos[k]` answers the `k`-th token issued. */
  datatype Batch = Batch(
    es: seq<Element>,
    infos: seq<Info>,
    active: Option<seq<Byte>>,
    pending: Option<seq<Byte>>)

  predicate Issued(b: Batch, t: DWord) {
    && |b.infos| == |b.es| < 0x1_0000_0000
    && forall k :: 0 <= k < |b.infos| ==> b.infos[k].token == TokenAt(t, k)
  }

  /** A context in which nothing has been loaded yet; the token counter may be anywhere. */
  predicate Blank(x: Context) {
    x.configsLoaded == 0 && !x.idsLoaded
  }

  /** An order of arrival: replies by number, `|es|` standing for the selected-config reply, none twice. */
  predicate Arrivals(b: Batch, order: seq<nat>) {
    && (forall i :: 0 <= i < |order| ==> order[i] <= |b.es|)
    && (forall i, j :: 0 <= i < j < |order| ==> order[i] != order[j])
  }

  function Arrived(x: Context, b: Batch, j: nat): (y: Context)
    requires x.configList.Some? && |x.configList.value| == |b.es| == |b.infos|
    requires j <= |b.es|
    ensures y.configList.Some? && |y.configList.value| == |b.es|
  {
    if j < |b.es| then OnInfo(x, b.infos[j]) else OnSelected(x, b.active, b.pending)
  }

  /** The reply is followed by the completeness check, and the check succeeds. */
  predicate Prints(x: Context, b: Batch, j: nat)
    requires x.configList.Some? && |x.configList.value| == |b.es| == |b.infos|
    requires j <= |b.es|
  {
    (j < |b.es| ==> Complete(b.infos[j])) && Completed(Arrived(x, b, j))
  }

  /** The context after the list indication and the replies in `order`. */
  function After(x0: Context, b: Batch, order: seq<nat>): (x: Context)
    requires |b.es| == |b.infos| && Arrivals(b, order)
    ensures x.configList.Some? && |x.configList.value| == |b.es|
    decreases |order|
  {
    if order == [] then Checked(OnList(x0, b.es))
    else
      var x, j := After(x0, b, order[..|order| - 1]), order[|order| - 1];
      if Prints(x, b, j) then Printed(Arrived(x, b, j)) else Arrived(x, b, j)
  }

  /** How often the table has been printed. */
  function Printouts(x0: Context, b: Batch, order: seq<nat>): nat
    requires |b.es| == |b.infos| && Arrivals(b, order)
    decreases |order|
  {
    if order == [] then if Completed(OnList(x0, b.es)) then 1 else 0
    else
      var front := order[..|order| - 1];
      Printouts(x0, b, front) + if Prints(After(x0, b, front), b, order[|order| - 1]) then 1 else 0
  }

  // ---- the state as a function of which replies have come ------------------------------

  function Seen(order: seq<nat>): set<nat> {
    set j | j in order
  }

  /** The entries whose complete info reply is among `seen`. */
  function Answered(b: Batch, seen: set<nat>): set<nat> {
    set k | k in seen && k < |b.infos| && Complete(b.infos[k])
  }

  predicate TableIs(cs: seq<ConfigInfo>, b: Batch, t: DWord, seen: set<nat>)
    requires |b.infos| == |b.es|
  {
    && |cs| == |b.es|
    && forall k :: 0 <= k < |cs| ==>
         cs[k] == if k in seen then Filled(Preallocated(b.es, t)[k], b.infos[k]) else Preallocated(b.es, t)[k]
  }

  /** The context the replies in `seen` lead to, whatever their order. */
  predicate StateIs(x: Context, x0: Context, b: Batch, seen: set<nat>)
    requires |b.infos| == |b.es|
  {
    && x.configList.Some? && TableIs(x.configList.value, b, x0.token, seen)
    && x.configsLoaded as int == |Answered(b, seen)|
    && (x.idsLoaded <==> |b.es| in seen)
    && x.activeId == (if |b.es| in seen && b.active.Some? then b.active else x0.activeId)
    && x.pendingId == (if |b.es| in seen && b.pending.Some? then b.pending else x0.pendingId)
  }

  /** Tokens of one list are pairwise distinct from any starting value. */
  lemma {:induction false} TokensDistinct(t: DWord, i: nat, j: nat)
    requires i < j < 0x1_0000_0000
    ensures TokenAt(t, i) != TokenAt(t, j)
  {
    TokenAtIs(t, i);
    TokenAtIs(t, j);
  }

  lemma {:induction false} TokenOf(cs: seq<ConfigInfo>, b: Batch, t: DWord, seen: set<nat>, k: nat)
    requires Issued(b, t) && TableIs(cs, b, t, seen) && k < |cs|
    ensures cs[k].token == b.infos[k].token
  {
    PreallocatedAt(b.es, t, k);
  }

  /** A reply finds the entry it answers. */
  lemma {:induction false} FindsEntry(cs: seq<ConfigInfo>, b: Batch, t: DWord, seen: set<nat>, k: nat)
    requires Issued(b, t) && TableIs(cs, b, t, seen) && k < |cs|
    ensures IndexOf(cs, b.infos[k].token) == k
  {
    var i := IndexOf(cs, b.infos[k].token);
    TokenOf(cs, b, t, seen, k);
    if i < k {
      TokenOf(cs, b, t, seen, i);
      TokensDistinct(t, i, k);
    }
  }

  lemma {:induction false} UpTo(n: nat) returns (s: set<nat>)
    ensures forall k: nat :: k in s <==> k < n
    ensures |s| == n
  {
    if n == 0 {
      s := {};
    } else {
      s := UpTo(n - 1);
      s := s + {n - 1};
    }
  }

  lemma {:induction false} SubsetSize(s: set<nat>, t: set<nat>)
    requires s <= t
    ensures |s| <= |t|
    ensures |s| == |t| ==> s == t
  {
    assert t == s + (t - s);
  }

  lemma {:induction false} AnsweredSize(b: Batch, seen: set<nat>)
    ensures |Answered(b, seen)| <= |b.infos|
    ensures |Answered(b, seen)| == |b.infos| <==> forall k: nat :: k < |b.infos| ==> k in Answered(b, seen)
  {
    var all := UpTo(|b.infos|);
    SubsetSize(Answered(b, seen), all);
    if forall k: nat :: k < |b.infos| ==> k in Answered(b, seen) {
      assert Answered(b, seen) == all;
    }
  }

  lemma {:induction false} AnsweredGrows(b: Batch, seen: set<nat>, j: nat)
    requires j !in seen
    ensures |Answered(b, seen + {j})| == |Answered(b, seen)| + if j < |b.infos| && Complete(b.infos[j]) then 1 else 0
  {
    if j < |b.infos| && Complete(b.infos[j]) {
      assert Answered(b, seen + {j}) == Answered(b, seen) + {j};
    } else {
      assert Answered(b, seen + {j}) == Answered(b, seen);
    }
  }

  lemma {:induction false} InfoTable(cs: seq<ConfigInfo>, b: Batch, t: DWord, seen: set<nat>, j: nat)
    requires Issued(b, t) && TableIs(cs, b, t, seen)
    requires j < |b.es| && j !in seen
    ensures IndexOf(cs, b.infos[j].token) == j
    ensures TableIs(cs[j := Filled(cs[j], b.infos[j])], b, t, seen + {j})
  {
    FindsEntry(cs, b, t, seen, j);
  }

  lemma {:induction false} ArrivalState(x: Context, x0: Context, b: Batch, seen: set<nat>, j: nat)
    requires Issued(b, x0.token) && StateIs(x, x0, b, seen)
    requires j <= |b.es| && j !in seen
    ensures StateIs(Arrived(x, b, j), x0, b, seen + {j})
  {
    AnsweredGrows(b, seen, j);
    AnsweredSize(b, seen + {j});
    if j < |b.es| { InfoTable(x.configList.value, b, x0.token, seen, j); }
  }

  lemma {:induction false} StateAfter(x0: Context, b: Batch, order: seq<nat>)
    requires Blank(x0) && Issued(b, x0.token) && Arrivals(b, order)
    ensures StateIs(After(x0, b, order), x0, b, Seen(order))
    decreases |order|
  {
    if order == [] {
      assert Answered(b, {}) == {};
    } else {
      var front, j := order[..|order| - 1], order[|order| - 1];
      StateAfter(x0, b, front);
      assert Seen(order) == Seen(front) + {j};
      ArrivalState(After(x0, b, front), x0, b, Seen(front), j);
    }
  }

  // ---- main results ---------------------------------------------------------------------

  function Described(cs: seq<ConfigInfo>): set<nat> {
    set k: nat | k < |cs| && cs[k].description.Some?
  }

  lemma {:induction false} DescribedAreAnswered(x: Context, x0: Context, b: Batch, seen: set<nat>)
    requires Issued(b, x0.token) && StateIs(x, x0, b, seen)
    ensures Described(x.configList.value) == Answered(b, seen)
  {
    var cs := x.configList.value;
    forall k: nat | k < |cs| ensures cs[k].description.Some? <==> k in Answered(b, seen) {
      PreallocatedAt(b.es, x0.token, k);
    }
  }

  /**
   At any time, when each issued token is answered at most once and no other
   token arrives, the counter is the number of described entries; so whenever
   the check succeeds no entry lacks the description that printing needs.
   */
  lemma {:induction false} CounterCountsDescriptions(x0: Context, b: Batch, order: seq<nat>)
    requires Blank(x0) && Issued(b, x0.token) && Arrivals(b, order)
    ensures var x := After(x0, b, order);
            x.configsLoaded as int == |Described(x.configList.value)| &&
            (Completed(x) ==> forall c :: c in x.configList.value ==> c.description.Some?)
  {
    var x := After(x0, b, order);
    StateAfter(x0, b, order);
    DescribedAreAnswered(x, x0, b, Seen(order));
    AnsweredSize(b, Seen(order));
    if Completed(x) {
      forall c | c in x.configList.value ensures c.description.Some? {
        var k: nat :| k < |b.es| && x.configList.value[k] == c;
        assert k in Described(x.configList.value);
      }
    }
  }

  /** Every info reply carries all its details. */
  predicate AllComplete(b: Batch) {
    forall k :: 0 <= k < |b.infos| ==> Complete(b.infos[k])
  }

  lemma {:induction false} SeenSize(order: seq<nat>)
    requires forall i, j :: 0 <= i < j < |order| ==> order[i] != order[j]
    ensures |Seen(order)| == |order|
  {
    if order != [] {
      var front, j := order[..|order| - 1], order[|order| - 1];
      SeenSize(front);
      assert Seen(order) == Seen(front) + {j};
    }
  }

  /** The check can only succeed once every reply has come. */
  lemma {:induction false} CompletedMeansAll(x0: Context, b: Batch, order: seq<nat>)
    requires Blank(x0) && Issued(b, x0.token) && Arrivals(b, order)
    ensures Completed(After(x0, b, order)) ==> |order| == |b.es| + 1
    ensures |order| == |b.es| + 1 && AllComplete(b) ==> Completed(After(x0, b, order))
    ensures |order| == |b.es| + 1 ==> forall k: nat :: k <= |b.es| ==> k in Seen(order)
  {
    var n := |b.es|;
    var all := UpTo(n + 1);
    StateAfter(x0, b, order);
    AnsweredSize(b, Seen(order));
    SeenSize(order);
    SubsetSize(Seen(order), all);
    if Completed(After(x0, b, order)) {
      forall k: nat | k <= n ensures k in Seen(order) {
        if k < n { assert k in Answered(b, Seen(order)); }
      }
      assert Seen(order) == all;
    }
  }

  /** The last reply prints if and, when all replies are complete, only if the check now succeeds. */
  lemma {:induction false} LastPrints(x0: Context, b: Batch, order: seq<nat>)
    requires |b.es| == |b.infos| && Arrivals(b, order) && order != []
    ensures var printed := Prints(After(x0, b, order[..|order| - 1]), b, order[|order| - 1]);
            (printed ==> Completed(After(x0, b, order))) &&
            (Completed(After(x0, b, order)) && AllComplete(b) ==> printed)
  {
  }

  /** Nothing has been printed while a reply is missing. */
  lemma {:induction false} SilentBefore(x0: Context, b: Batch, order: seq<nat>)
    requires Blank(x0) && Issued(b, x0.token) && Arrivals(b, order) && |order| <= |b.es|
    ensures Printouts(x0, b, order) == 0
    decreases |order|
  {
    if order != [] {
      var front := order[..|order| - 1];
      SilentBefore(x0, b, front);
      CompletedMeansAll(x0, b, order);
      LastPrints(x0, b, order);
    }
  }

  /**
   The join: for every list and every order of the n info replies and the
   selected-config reply, each succeeding once, the table is printed exactly
   once and by the last of them; no earlier prefix prints.
   */
  lemma {:induction false} PrintsOnceAndLast(x0: Context, b: Batch, order: seq<nat>)
    requires Blank(x0) && Issued(b, x0.token) && Arrivals(b, order)
    requires AllComplete(b) && |order| == |b.es| + 1
    ensures Printouts(x0, b, order) == 1
    ensures forall i :: 0 <= i < |order| ==> Printouts(x0, b, order[..i]) == 0
  {
    forall i | 0 <= i < |order| ensures Printouts(x0, b, order[..i]) == 0 {
      SilentBefore(x0, b, order[..i]);
    }
    CompletedMeansAll(x0, b, order);
    LastPrints(x0, b, order);
  }

  lemma {:induction false} LastToken(x0: Context, b: Batch, order: seq<nat>)
    requires |b.es| == |b.infos| && Arrivals(b, order) && order != []
    ensures var front, x := After(x0, b, order[..|order| - 1]), After(x0, b, order);
            x.token == if Prints(front, b, order[|order| - 1])
                       then TokenAt(front.token, Selections(x.configList.value)) else front.token
  {
  }

  lemma {:induction false} TokenBefore(x0: Context, b: Batch, order: seq<nat>)
    requires Blank(x0) && Issued(b, x0.token) && Arrivals(b, order) && |order| <= |b.es|
    ensures After(x0, b, order).token == TokenAt(x0.token, |b.es|)
    decreases |order|
  {
    if order != [] {
      TokenBefore(x0, b, order[..|order| - 1]);
      CompletedMeansAll(x0, b, order);
      LastPrints(x0, b, order);
      LastToken(x0, b, order);
    }
  }

  /** From token `t` on, `n` tokens and one for each selection of the table have been used up. */
  predicate Costs(x: Context, t: DWord, n: nat) {
    x.configList.Some? && x.token == TokenAt(t, n + Selections(x.configList.value))
  }

  /** The list costs a token per entry and the printing one per selection. */
  lemma {:induction false} TokenAtEnd(x0: Context, b: Batch, order: seq<nat>)
    requires Blank(x0) && Issued(b, x0.token) && Arrivals(b, order)
    requires AllComplete(b) && |order| == |b.es| + 1
    ensures Costs(After(x0, b, order), x0.token, |b.es|)
  {
    TokenBefore(x0, b, order[..|order| - 1]);
    CompletedMeansAll(x0, b, order);
    LastPrints(x0, b, order);
    LastToken(x0, b, order);
    TokenAtSum(x0.token, |b.es|, Selections(After(x0, b, order).configList.value));
  }

  /** Every entry filled from the reply of the same number. */
  function FilledAll(cs: seq<ConfigInfo>, infos: seq<Info>): (r: seq<ConfigInfo>)
    requires |cs| == |infos|
    ensures |r| == |cs| && forall k :: 0 <= k < |cs| ==> r[k] == Filled(cs[k], infos[k])
  {
    if cs == [] then [] else [Filled(cs[0], infos[0])] + FilledAll(cs[1..], infos[1..])
  }

  /** The outcome of a batch, told without any order of arrival. */
  function Final(x0: Context, b: Batch): Context
    requires |b.es| == |b.infos| < 0x1_0000_0000
  {
    var table := FilledAll(Preallocated(b.es, x0.token), b.infos);
    Context(Some(table), |b.es|, true,
            if b.active.Some? then b.active else x0.activeId,
            if b.pending.Some? then b.pending else x0.pendingId,
            TokenAt(x0.token, |b.es| + Selections(table)))
  }

  lemma {:induction false} FinalToken(x0: Context, b: Batch)
    requires |b.es| == |b.infos| < 0x1_0000_0000
    ensures var y := Final(x0, b);
            y.configList.Some? && y.token == TokenAt(x0.token, |b.es| + Selections(y.configList.value))
  {
  }

  lemma {:induction false} FinalTable(x0: Context, b: Batch, order: seq<nat>)
    requires Blank(x0) && Issued(b, x0.token) && Arrivals(b, order)
    requires AllComplete(b) && |order| == |b.es| + 1
    ensures var x, y := After(x0, b, order), Final(x0, b);
            x == y.(token := x.token)
  {
    var x := After(x0, b, order);
    StateAfter(x0, b, order);
    CompletedMeansAll(x0, b, order);
    assert x.configList.value == FilledAll(Preallocated(b.es, x0.token), b.infos);
  }

  lemma {:induction false} FinalCost(x: Context, x0: Context, b: Batch)
    requires |b.es| == |b.infos| < 0x1_0000_0000 && x == Final(x0, b).(token := x.token)
    requires Costs(x, x0.token, |b.es|)
    ensures x == Final(x0, b)
  {
    FinalToken(x0, b);
  }

  /** The context after all replies: the final one as to the table, and its tokens counted. */
  lemma {:induction false} AfterIs(x0: Context, b: Batch, order: seq<nat>) returns (x: Context)
    requires Blank(x0) && Issued(b, x0.token) && Arrivals(b, order)
    requires AllComplete(b) && |order| == |b.es| + 1
    ensures x == After(x0, b, order) && x == Final(x0, b).(token := x.token) && Costs(x, x0.token, |b.es|)
  {
    x := After(x0, b, order);
    FinalTable(x0, b, order);
    TokenAtEnd(x0, b, order);
  }

  /** Confluence: whatever the order, the replies lead to the one outcome of their batch. */
  lemma {:induction false} OrderLeavesNoTrace(x0: Context, b: Batch, order: seq<nat>)
    requires Blank(x0) && Issued(b, x0.token) && Arrivals(b, order)
    requires AllComplete(b) && |order| == |b.es| + 1
    ensures After(x0, b, order) == Final(x0, b)
  {
    var x := AfterIs(x0, b, order);
    FinalCost(x, x0, b);
  }

  /** In that outcome every entry is the listed element with the details of its own reply. */
  lemma {:induction false} FinalEntry(x0: Context, b: Batch, k: nat)
    requires Issued(b, x0.token) && AllComplete(b) && k < |b.es|
    ensures Final(x0, b).configList.value[k] ==
            ConfigInfo(b.es[k].id, b.es[k].configType, b.infos[k].token, b.infos[k].version.value,
                       b.infos[k].description, b.infos[k].totalSize.value)
  {
    PreallocatedAt(b.es, x0.token, k);
  }

  /** The set-selected requests sent over the whole batch. */
  function SentOver(x0: Context, b: Batch, order: seq<nat>): seq<Request>
    requires |b.es| == |b.infos| && Arrivals(b, order)
    decreases |order|
  {
    if order == [] then Sends(OnList(x0, b.es))
    else
      var front, j := order[..|order| - 1], order[|order| - 1];
      var x := After(x0, b, front);
      SentOver(x0, b, front) + if Prints(x, b, j) then Sends(Arrived(x, b, j)) else []
  }

  lemma {:induction false} UnprintedSendsNothing(x0: Context, b: Batch, order: seq<nat>)
    requires |b.es| == |b.infos| && Arrivals(b, order) && Printouts(x0, b, order) == 0
    ensures SentOver(x0, b, order) == []
    decreases |order|
  {
    if order != [] { UnprintedSendsNothing(x0, b, order[..|order| - 1]); }
  }

  /** The last reply finds the final table, with the tokens of the list used up. */
  lemma {:induction false} LastArrived(x0: Context, b: Batch, order: seq<nat>)
    requires Blank(x0) && Issued(b, x0.token) && Arrivals(b, order)
    requires AllComplete(b) && |order| == |b.es| + 1
    ensures var x, j := After(x0, b, order[..|order| - 1]), order[|order| - 1];
            Prints(x, b, j) && Arrived(x, b, j).configList == Final(x0, b).configList &&
            Arrived(x, b, j).token == TokenAt(x0.token, |b.es|)
  {
    CompletedMeansAll(x0, b, order);
    LastPrints(x0, b, order);
    FinalTable(x0, b, order);
    TokenBefore(x0, b, order[..|order| - 1]);
  }

  /**
   Whatever the order of the replies, the batch sends the set-selected requests
   of the final table, with the tokens that follow those of the list.
   */
  lemma {:induction false} SendsFinalSelection(x0: Context, b: Batch, order: seq<nat>)
    requires Blank(x0) && Issued(b, x0.token) && Arrivals(b, order)
    requires AllComplete(b) && |order| == |b.es| + 1
    ensures SentOver(x0, b, order) == SelectRequests(Final(x0, b).configList.value, TokenAt(x0.token, |b.es|))
  {
    var front := order[..|order| - 1];
    SilentBefore(x0, b, front);
    UnprintedSendsNothing(x0, b, front);
    LastArrived(x0, b, order);
  }

  /** In that table an entry is selected exactly when its own reply described it as "ROW_Commercial". */
  lemma {:induction false} SelectedEntries(x0: Context, b: Batch, k: nat)
    requires Issued(b, x0.token) && AllComplete(b) && k < |b.es|
    ensures Commercial(Final(x0, b).configList.value, k) <==> b.infos[k].description == Some("ROW_Commercial")
    ensures Final(x0, b).configList.value[k].id == b.es[k].id
  {
    FinalEntry(x0, b, k);
  }

  /**
   A second list starts with the counter of the first: once a list has been
   found complete, the next one is found complete at once exactly when it is as
   long, and then no entry has its description.
   */
  lemma {:induction false} SecondList(x: Context, es: seq<Element>)
    requires x.configList.Some? && Completed(x)
    ensures Completed(OnList(x, es)) <==> |es| == |x.configList.value|
    ensures forall k :: 0 <= k < |es| ==> OnList(x, es).configList.value[k].description.None?
  {
    forall k | 0 <= k < |es| ensures OnList(x, es).configList.value[k].description.None? {
      PreallocatedAt(es, x.token, k);
    }
  }
}
