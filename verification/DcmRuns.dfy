/** The server state over whole runs of activations and notifications. */
module DcmRuns {
  import opened Bytes
  import opened Options
  import opened Dcm

  datatype Event =
    | Activates(a: Activation)
    | Notifies(slot: DWord, address: seq<Byte>)

  /** Requests name slots the table has; address texts fit their size field. */
  predicate Legal(e: Event) {
    match e
    case Activates(a) => SlotOf(a) < MAX_SIM_SLOTS
    case Notifies(_, address) => |address| < 0x100
  }

  function Step(sv: Server, e: Event): Server
    requires Legal(e)
  {
    match e
    case Activates(a) => Activate(sv, a)
    case Notifies(slot, address) => Notify(sv, slot, address).0
  }

  ghost predicate AllLegal(es: seq<Event>) {
    forall i :: 0 <= i < |es| ==> Legal(es[i])
  }

  /** The state a run from start-up ends in. */
  ghost function After(es: seq<Event>): Server
    requires AllLegal(es)
  {
    if es == [] then INITIAL else Step(After(es[..|es| - 1]), es[|es| - 1])
  }

  /** An activation has named this slot. */
  ghost predicate Named(es: seq<Event>, slot: DWord) {
    exists i :: 0 <= i < |es| && es[i].Activates? && es[i].a.slot == Some(slot)
  }

  /** An activation touches the entry of its slot only; a notification touches none. */
  lemma {:induction false} StepTouches(sv: Server, e: Event, i: nat)
    requires Legal(e) && i < MAX_SIM_SLOTS
    ensures Step(sv, e).sessions[i] !=  sv.sessions[i] ==> e.Activates? && SlotOf(e.a) == i
  {
  }

  lemma {:induction false} NamedGrows(es: seq<Event>, e: Event, slot: DWord)
    ensures Named(es + [e], slot) <==> Named(es, slot) || (e.Activates? && e.a.slot == Some(slot))
  {
    var all := es + [e];
    if Named(es, slot) {
      var i :| 0 <= i < |es| && es[i].Activates? && es[i].a.slot == Some(slot);
      assert all[i] == es[i];
    }
    if e.Activates? && e.a.slot == Some(slot) { assert all[|es|] == e; }
  }

  /** Entry 0 keeps slot number 0; entry 1 has slot number 1 exactly when slot 1 has been named. */
  lemma {:induction false} SlotNumbers(es: seq<Event>)
    requires AllLegal(es)
    ensures After(es).sessions[0].slotId == 0
    ensures After(es).sessions[1].slotId == if Named(es, 1) then 1 else 0
  {
    if es != [] {
      var front, e := es[..|es| - 1], es[|es| - 1];
      SlotNumbers(front);
      assert es == front + [e];
      NamedGrows(front, e, 1);
    }
  }

  /**
   Which entry a notification speaks for: slot 1 is found exactly when it has
   been named, and slot 0 resolves to its own entry exactly when slot 1 has been
   named. Until then the blank entry 1 also carries number 0 and is found last.
   */
  lemma {:induction false} Resolution(es: seq<Event>)
    requires AllLegal(es)
    ensures Resolve(After(es).sessions, 1) == if Named(es, 1) then Some(1) else None
    ensures Resolve(After(es).sessions, 0) == if Named(es, 1) then Some(0) else Some(1)
    ensures forall slot: DWord :: slot >= 2 ==> Resolve(After(es).sessions, slot) == None
  {
    SlotNumbers(es);
    var t := After(es).sessions;
    assert t[..1][..0] == [];
    assert t[..1] == [t[0]];
  }

  /** How many notifications of a run were sent. */
  ghost function Sent(es: seq<Event>): nat
    requires AllLegal(es)
  {
    if es == [] then 0
    else
      var front, e := es[..|es| - 1], es[|es| - 1];
      Sent(front) + if e.Notifies? && Resolve(After(front).sessions, e.slot).Some? then 1 else 0
  }

  function NthTransaction(n: nat): Word {
    if n == 0 then 99 else (n - 1) % 99 + 1
  }

  lemma {:induction false} NextNth(n: nat)
    ensures NextTransaction(NthTransaction(n)) == NthTransaction(n + 1)
  {
  }

  /** Only sent notifications consume transaction ids, and the n-th one carries ((n - 1) mod 99) + 1. */
  lemma {:induction false} TransactionIds(es: seq<Event>)
    requires AllLegal(es)
    ensures After(es).transactionId == NthTransaction(Sent(es))
  {
    if es != [] {
      TransactionIds(es[..|es| - 1]);
      NextNth(Sent(es[..|es| - 1]));
    }
  }

  /** No id is 0, and any 99 consecutive indications carry distinct ids. */
  lemma {:induction false} NinetyNineDistinct(m: nat, n: nat)
    requires 0 < m < n < m + 99
    ensures 1 <= NthTransaction(m) <= 99
    ensures NthTransaction(m) != NthTransaction(n)
  {
  }
}
