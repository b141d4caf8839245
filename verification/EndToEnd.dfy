/**
 The whole path: activation requests fill the session table and start
 sessions, serialised bring-ups run to FINISHED, and the tick there sends an
 address indication. What the indication says is compared with what was asked.
 */
module EndToEnd {
  import opened Bytes
  import opened Options
  import opened Tlvs
  import opened Walk
  import opened Inet
  import opened Dcm
  import opened DcmMessages
  import DcmRuns
  import Wds
  import opened WdsSerial

  datatype RawSystem = System(server: Server, clients: seq<Serial>)

  type System = y: RawSystem | |y.clients| == MAX_SIM_SLOTS
    witness System(INITIAL, [WdsSerial.BEGIN, WdsSerial.BEGIN])

  const START: System := System(INITIAL, [WdsSerial.BEGIN, WdsSerial.BEGIN])

  /** A request packet of whole items, a timer tick of one slot, a modem reply to one slot. */
  datatype Happening =
    | Asks(ts: seq<Tlv>)
    | TimerOf(slot: nat)
    | ReplyTo(slot: nat, reply: Wds.Reply)

  predicate Possible(y: System, h: Happening) {
    match h
    case Asks(ts) =>
      WellFormed(ts) && SlotOf(ActivationOf(ts)) < MAX_SIM_SLOTS &&
      y.clients[SlotOf(ActivationOf(ts))].pending.None?
    case TimerOf(s) => s < MAX_SIM_SLOTS && Enabled(y.clients[s], Ticks)
    case ReplyTo(s, r) => s < MAX_SIM_SLOTS && Enabled(y.clients[s], Replies(r))
  }

  /** The text the address buffer is read as; in every run it is terminated. */
  function AddressText(ip: seq<Byte>): (t: seq<Byte>)
    requires |ip| <= IP_BUFFER_SIZE
    ensures |t| <= IP_BUFFER_SIZE
  {
    if 0 in ip then CText(ip) else ip
  }

  predicate Notifying(y: System, s: nat)
    requires s < MAX_SIM_SLOTS
  {
    y.clients[s].session.step == Wds.FINISHED && |y.clients[s].session.ip| == IP_BUFFER_SIZE
  }

  /** What the tick of a finished session does to the server, and what it sends. */
  function Notification(y: System, s: nat): (Server, Option<seq<Byte>>)
    requires s < MAX_SIM_SLOTS && Notifying(y, s)
  {
    Notify(y.server, y.clients[s].session.slotId, AddressText(y.clients[s].session.ip))
  }

  function Proceed(y: System, h: Happening): System
    requires Possible(y, h)
  {
    match h
    case Asks(ts) =>
      var a := ActivationOf(ts);
      var s := SlotOf(a);
      System(Activate(y.server, a), y.clients[s := AfterInitiate(y.clients[s], s)])
    case TimerOf(s) =>
      System(if Notifying(y, s) then Notification(y, s).0 else y.server, y.clients[s := AfterTick(y.clients[s])])
    case ReplyTo(s, r) =>
      y.(clients := y.clients[s := AfterReply(y.clients[s], r)])
  }

  function RunOf(hs: seq<Happening>): Option<System> {
    if hs == [] then Some(START)
    else
      match RunOf(hs[..|hs| - 1])
      case None => None
      case Some(y) => if Possible(y, hs[|hs| - 1]) then Some(Proceed(y, hs[|hs| - 1])) else None
  }

  /** On the wire: a request packet of these items does to the table what `Proceed` does, and starts that session. */
  lemma {:induction false} RequestOnTheWire(sv: Server, b: seq<Byte>, len: nat, ts: seq<Tlv>)
    requires HEADER_SIZE <= |b| && QmiUtil.GetQmiMessageId(b) == IMS_DCM_PDP_ACTIVATE
    requires Carries(b, len, ts) && WellFormed(ts) && SlotOf(ActivationOf(ts)) < MAX_SIM_SLOTS
    ensures ActivationReadable(b, len) && ActivationIn(b, len) == ActivationOf(ts)
    ensures Handle(sv, b, len).server == Activate(sv, ActivationOf(ts))
    ensures Handle(sv, b, len).start == Some(SlotOf(ActivationOf(ts)))
  {
    ActivationOfItems(b, len, ts);
  }

  // ---- what has been asked and answered, read off the history ------------------------------

  /** The happening is an activation of slot `s`. */
  predicate AsksFor(h: Happening, s: nat) {
    h.Asks? && WellFormed(h.ts) && SlotOf(ActivationOf(h.ts)) == s
  }

  function LatestSequence(hs: seq<Happening>, s: nat): DWord {
    if hs == [] then 0
    else
      var h := hs[|hs| - 1];
      if AsksFor(h, s) && ActivationOf(h.ts).sequence.Some? then ActivationOf(h.ts).sequence.value
      else LatestSequence(hs[..|hs| - 1], s)
  }

  function LatestInstance(hs: seq<Happening>, s: nat): DWord {
    if hs == [] then 0
    else
      var h := hs[|hs| - 1];
      if AsksFor(h, s) && ActivationOf(h.ts).instance.Some? then ActivationOf(h.ts).instance.value
      else LatestInstance(hs[..|hs| - 1], s)
  }

  function LatestSubscription(hs: seq<Happening>, s: nat): DWord {
    if hs == [] then 0
    else
      var h := hs[|hs| - 1];
      if AsksFor(h, s) && ActivationOf(h.ts).subscription.Some? then ActivationOf(h.ts).subscription.value
      else LatestSubscription(hs[..|hs| - 1], s)
  }

  /** Number of activations of slot `s`. */
  function Sessions(hs: seq<Happening>, s: nat): nat {
    if hs == [] then 0
    else Sessions(hs[..|hs| - 1], s) + if AsksFor(hs[|hs| - 1], s) then 1 else 0
  }

  predicate Settles(h: Happening, s: nat) {
    && h.ReplyTo? && h.slot == s && h.reply.CurrentSettings?
    && h.reply.netmask.Some? && h.reply.address.Some?
  }

  /** The text stored for a complete settings reply. */
  function SettledText(h: Happening): seq<Byte>
    requires h.ReplyTo? && Settles(h, h.slot)
  {
    QmiInet4Ntop(h.reply.address.value)
  }

  /** Length of the longest address text ever stored for slot `s`. */
  function LongestText(hs: seq<Happening>, s: nat): nat {
    if hs == [] then 0
    else
      var h, before := hs[|hs| - 1], LongestText(hs[..|hs| - 1], s);
      if Settles(h, s) && before < |SettledText(h)| then |SettledText(h)| else before
  }

  /** No settings reply to slot `s` has ever brought a text longer than `n`. */
  predicate NoneLonger(hs: seq<Happening>, s: nat, n: nat) {
    forall k :: 0 <= k < |hs| && Settles(hs[k], s) ==> |SettledText(hs[k])| <= n
  }

  lemma {:induction false} LongestIs(hs: seq<Happening>, s: nat, n: nat)
    ensures LongestText(hs, s) <= n <==> NoneLonger(hs, s, n)
  {
    if hs != [] {
      var front := hs[..|hs| - 1];
      LongestIs(front, s, n);
      assert NoneLonger(hs, s, n) ==> NoneLonger(front, s, n) by {
        assert forall k :: 0 <= k < |front| ==> front[k] == hs[k];
      }
    }
  }

  /** The address of the last complete settings reply to slot `s`. */
  function LatestAddress(hs: seq<Happening>, s: nat): Option<DWord> {
    if hs == [] then None
    else if Settles(hs[|hs| - 1], s) then hs[|hs| - 1].reply.address
    else LatestAddress(hs[..|hs| - 1], s)
  }

  // ---- the invariant --------------------------------------------------------------------

  /** The buffer holds text up to `n` and zeros from there on. */
  predicate Filled(ip: seq<Byte>, n: nat) {
    && |ip| == IP_BUFFER_SIZE && n < INET_ADDRSTRLEN
    && (forall i :: 0 <= i < n ==> ip[i] != 0)
    && (forall i :: n <= i < |ip| ==> ip[i] == 0)
  }

  /** The table entry of a slot says what the history says. */
  predicate EntryOk(e: PdpSession, hs: seq<Happening>, s: nat) {
    && e.sequenceId == LatestSequence(hs, s) && e.instanceId == LatestInstance(hs, s)
    && e.subscriptionId == LatestSubscription(hs, s) && e.internalPdpId == 0
    && e.slotId == (if s == 1 && Sessions(hs, 1) > 0 then 1 else 0)
  }

  predicate ClientOk(c: Serial, hs: seq<Happening>, s: nat) {
    && Inv(c) && Filled(c.session.ip, LongestText(hs, s))
    && (c.stored.Some? ==> LatestAddress(hs, s) == c.stored)
    && (Sessions(hs, s) == 0 ==> c.timers == 0 && c.pending.None? && c.session.ip == Wds.FRESH.ip)
    && (Sessions(hs, s) > 0 ==> c.session.slotId == s)
    && (Sessions(hs, s) == 1 ==> c.ipBefore == Wds.FRESH.ip)
  }

  predicate SystemOk(y: System, hs: seq<Happening>) {
    forall s :: 0 <= s < MAX_SIM_SLOTS ==> EntryOk(y.server.sessions[s], hs, s) && ClientOk(y.clients[s], hs, s)
  }

  lemma {:induction false} StoreFills(ip: seq<Byte>, n: nat, address: DWord)
    requires Filled(ip, n)
    ensures var m := |QmiInet4Ntop(address)|;
            Filled(Wds.StoreAddress(ip, address), if n < m then m else n)
  {
    var t, r := QmiInet4Ntop(address), Wds.StoreAddress(ip, address);
    assert forall i :: 0 <= i < |t| ==> r[i] == t[i];
    assert forall i :: |t| <= i < |r| ==> r[i] == ip[i];
  }

  lemma {:induction false} HistoryOf(front: seq<Happening>, h: Happening, s: nat)
    ensures var hs := front + [h];
            hs[..|hs| - 1] == front && hs[|hs| - 1] == h &&
            (!AsksFor(h, s) ==>
               LatestSequence(hs, s) == LatestSequence(front, s) && LatestInstance(hs, s) == LatestInstance(front, s) &&
               LatestSubscription(hs, s) == LatestSubscription(front, s) && Sessions(hs, s) == Sessions(front, s)) &&
            (AsksFor(h, s) ==> Sessions(hs, s) == Sessions(front, s) + 1) &&
            LatestAddress(hs, s) == (if Settles(h, s) then h.reply.address else LatestAddress(front, s)) &&
            LongestText(hs, s) ==
              if Settles(h, s) && LongestText(front, s) < |SettledText(h)| then |SettledText(h)|
              else LongestText(front, s)
  {
  }

  /** An entry whose slot is not named by the activation keeps its place in the history. */
  lemma {:induction false} EntryKept(e: PdpSession, front: seq<Happening>, h: Happening, s: nat)
    requires EntryOk(e, front, s) && !AsksFor(h, s)
    ensures EntryOk(e, front + [h], s)
  {
  }

  lemma {:induction false} EntryAsked(e: PdpSession, front: seq<Happening>, h: Happening, s: nat)
    requires EntryOk(e, front, s) && AsksFor(h, s) && s < MAX_SIM_SLOTS
    ensures EntryOk(Updated(e, ActivationOf(h.ts)), front + [h], s)
  {
    HistoryOf(front, h, s);
  }

  lemma {:induction false} ClientKept(c: Serial, front: seq<Happening>, h: Happening, s: nat)
    requires ClientOk(c, front, s) && !AsksFor(h, s) && !Settles(h, s)
    ensures ClientOk(c, front + [h], s)
  {
  }

  lemma {:induction false} ClientAsked(c: Serial, front: seq<Happening>, h: Happening, s: nat)
    requires ClientOk(c, front, s) && AsksFor(h, s) && s < MAX_SIM_SLOTS && c.pending.None?
    ensures ClientOk(AfterInitiate(c, s), front + [h], s)
  {
  }

  lemma {:induction false} TickKeepsHistory(c: Serial)
    requires Enabled(c, Ticks)
    ensures var d := AfterTick(c);
            d.stored == c.stored && d.ipBefore == c.ipBefore && d.session.slotId == c.session.slotId &&
            d.session.ip == c.session.ip
  {
  }

  lemma {:induction false} ClientTicked(c: Serial, front: seq<Happening>, h: Happening, s: nat)
    requires ClientOk(c, front, s) && Enabled(c, Ticks) && h == TimerOf(s)
    ensures ClientOk(AfterTick(c), front + [h], s)
  {
    ClientKept(c, front, h, s);
    InvTick(c);
    TickKeepsHistory(c);
    HistoryOf(front, h, s);
  }

  lemma {:induction false} ReplyKeepsHistory(c: Serial, r: Wds.Reply)
    requires Inv(c) && Enabled(c, Replies(r))
    ensures var d := AfterReply(c, r);
            d.timers == c.timers && d.ipBefore == c.ipBefore && d.session.slotId == c.session.slotId &&
            (match r
             case CurrentSettings(Some(_), Some(a)) =>
               d.stored == Some(a) && d.session.ip == Wds.StoreAddress(c.session.ip, a)
             case _ => (d.stored.Some? ==> d.stored == c.stored) && d.session.ip == c.session.ip)
  {
  }

  lemma {:induction false} ClientReplied(c: Serial, front: seq<Happening>, h: Happening, s: nat, r: Wds.Reply)
    requires ClientOk(c, front, s) && Enabled(c, Replies(r)) && h == ReplyTo(s, r)
    requires Sessions(front, s) > 0
    ensures ClientOk(AfterReply(c, r), front + [h], s)
  {
    HistoryOf(front, h, s);
    InvNext(c, Replies(r));
    ReplyKeepsHistory(c, r);
    if Settles(h, s) { StoreFills(c.session.ip, LongestText(front, s), r.address.value); }
  }

  lemma {:induction false} StartOk()
    ensures SystemOk(START, [])
  {
  }

  lemma {:induction false} AskKeeps(y: System, front: seq<Happening>, h: Happening)
    requires SystemOk(y, front) && h.Asks? && Possible(y, h)
    ensures SystemOk(Proceed(y, h), front + [h])
  {
    var a := ActivationOf(h.ts);
    forall s | 0 <= s < MAX_SIM_SLOTS
      ensures var z := Proceed(y, h);
              EntryOk(z.server.sessions[s], front + [h], s) && ClientOk(z.clients[s], front + [h], s)
    {
      if s == SlotOf(a) {
        EntryAsked(y.server.sessions[s], front, h, s);
        ClientAsked(y.clients[s], front, h, s);
      } else {
        EntryKept(y.server.sessions[s], front, h, s);
        ClientKept(y.clients[s], front, h, s);
      }
    }
  }

  /** A tick leaves the table alone, whatever it sends. */
  lemma {:induction false} TimerTouches(y: System, s: nat)
    requires Possible(y, TimerOf(s))
    ensures var z := Proceed(y, TimerOf(s));
            z.server.sessions == y.server.sessions && z.clients == y.clients[s := AfterTick(y.clients[s])]
  {
  }

  lemma {:induction false} TimerKeeps(y: System, front: seq<Happening>, h: Happening)
    requires SystemOk(y, front) && h.TimerOf? && Possible(y, h)
    ensures SystemOk(Proceed(y, h), front + [h])
  {
    TimerTouches(y, h.slot);
    forall s | 0 <= s < MAX_SIM_SLOTS
      ensures var z := Proceed(y, h);
              EntryOk(z.server.sessions[s], front + [h], s) && ClientOk(z.clients[s], front + [h], s)
    {
      EntryKept(y.server.sessions[s], front, h, s);
      if s == h.slot {
        ClientTicked(y.clients[s], front, h, s);
      } else {
        ClientKept(y.clients[s], front, h, s);
      }
    }
  }

  lemma {:induction false} ReplyKeeps(y: System, front: seq<Happening>, h: Happening)
    requires SystemOk(y, front) && h.ReplyTo? && Possible(y, h)
    ensures SystemOk(Proceed(y, h), front + [h])
  {
    forall s | 0 <= s < MAX_SIM_SLOTS
      ensures var z := Proceed(y, h);
              EntryOk(z.server.sessions[s], front + [h], s) && ClientOk(z.clients[s], front + [h], s)
    {
      EntryKept(y.server.sessions[s], front, h, s);
      if s == h.slot {
        ClientReplied(y.clients[s], front, h, s, h.reply);
      } else {
        ClientKept(y.clients[s], front, h, s);
      }
    }
  }

  /** In every run the table and the sessions agree with the history. */
  lemma {:induction false} RunsAgree(hs: seq<Happening>)
    requires RunOf(hs).Some?
    ensures SystemOk(RunOf(hs).value, hs)
  {
    if hs == [] {
      StartOk();
    } else {
      var front, h := hs[..|hs| - 1], hs[|hs| - 1];
      RunsAgree(front);
      var y := RunOf(front).value;
      assert hs == front + [h];
      match h
      case Asks(_) => AskKeeps(y, front, h);
      case TimerOf(_) => TimerKeeps(y, front, h);
      case ReplyTo(_, _) => ReplyKeeps(y, front, h);
    }
  }

  // ---- the indication --------------------------------------------------------------------

  /** The entry a notification of slot `s` speaks for. */
  function SpokenFor(hs: seq<Happening>, s: nat): nat {
    if s == 1 || Sessions(hs, 1) > 0 then s else 1
  }

  lemma {:induction false} ResolvesTo(y: System, hs: seq<Happening>, s: nat)
    requires SystemOk(y, hs) && s < MAX_SIM_SLOTS && Sessions(hs, s) > 0
    ensures Resolve(y.server.sessions, s) == Some(SpokenFor(hs, s))
  {
  }

  /** A terminated buffer is read up to its first zero. */
  lemma {:induction false} TextIs(ip: seq<Byte>, n: nat)
    requires Filled(ip, n)
    ensures AddressText(ip) == ip[..n]
  {
    assert ip[n] == 0;
  }

  /**
   Storing over a text of length `n` leaves a text that starts with the new
   address, and shows it exactly when the old text was no longer.
   */
  lemma {:induction false} StoredTextExact(ip: seq<Byte>, n: nat, address: DWord)
    requires Filled(ip, n)
    ensures var t := QmiInet4Ntop(address);
            var read := AddressText(Wds.StoreAddress(ip, address));
            t <= read && |read| == (if n < |t| then |t| else n) && (read == t <==> n <= |t|)
  {
    var t := QmiInet4Ntop(address);
    var r := Wds.StoreAddress(ip, address);
    StoreFills(ip, n, address);
    TextIs(r, if n < |t| then |t| else n);
    assert r[..|t|] == t;
  }

  /** What the tick of a finished session sends, as bytes. */
  lemma {:induction false} NotificationSent(hs: seq<Happening>, s: nat)
    requires RunOf(hs).Some? && s < MAX_SIM_SLOTS
    requires var y := RunOf(hs).value; Possible(y, TimerOf(s)) && Notifying(y, s)
    ensures var y := RunOf(hs).value;
            var ip := y.clients[s].session.ip;
            Sessions(hs, s) > 0 && |AddressText(ip)| < INET_ADDRSTRLEN &&
            Notification(y, s).1 ==
              Some(Indication(NextTransaction(y.server.transactionId), y.server.sessions[SpokenFor(hs, s)],
                              AddressText(ip)))
  {
    RunsAgree(hs);
    var y := RunOf(hs).value;
    assert ClientOk(y.clients[s], hs, s);
    ResolvesTo(y, hs, s);
    TextIs(y.clients[s].session.ip, LongestText(hs, s));
  }

  /** The message says, to the walker, that the latest activation of slot `s` got this address. */
  ghost predicate AnnouncesLatest(hs: seq<Happening>, s: nat, msg: seq<Byte>, slack: seq<Byte>, address: seq<Byte>)
  {
    exists e: PdpSession ::
      e.sequenceId == LatestSequence(hs, s) && e.instanceId == LatestInstance(hs, s) &&
      Announces(msg + slack, |msg|, e, address)
  }

  /**
   End to end, identity: the indication sent at FINISHED for slot `s` carries
   the sequence and instance of the latest activation of `s` exactly when slot 1
   has ever been activated, or `s` has only ever been given zeros. A session of
   slot 0 alone is announced under the blank entry 1.
   */
  lemma {:induction false} NotificationNamesSession(hs: seq<Happening>, s: nat, slack: seq<Byte>)
    requires RunOf(hs).Some? && s < MAX_SIM_SLOTS
    requires var y := RunOf(hs).value; Possible(y, TimerOf(s)) && Notifying(y, s)
    ensures var y := RunOf(hs).value;
            var sent := Notification(y, s).1;
            sent.Some? &&
            (AnnouncesLatest(hs, s, sent.value, slack, AddressText(y.clients[s].session.ip)) <==>
               Sessions(hs, 1) > 0 || (LatestSequence(hs, s) == 0 && LatestInstance(hs, s) == 0))
  {
    NotificationSent(hs, s);
    RunsAgree(hs);
    var y := RunOf(hs).value;
    var k := SpokenFor(hs, s);
    var e, address, id :=
      y.server.sessions[k], AddressText(y.clients[s].session.ip), NextTransaction(y.server.transactionId);
    var msg := Notification(y, s).1.value;
    assert EntryOk(e, hs, k);
    IndicationRoundTrip(id, e, address, slack);
    assert Announces(msg + slack, |msg|, e, address);
    if k != s { NeverAsked(hs, 1); }
    if AnnouncesLatest(hs, s, msg, slack, address) {
      var e': PdpSession :| e'.sequenceId == LatestSequence(hs, s) && e'.instanceId == LatestInstance(hs, s) &&
                Announces(msg + slack, |msg|, e', address);
      AnnouncesOne(msg + slack, |msg|, e, address, e', address);
    }
  }

  lemma {:induction false} NeverAsked(hs: seq<Happening>, s: nat)
    requires Sessions(hs, s) == 0
    ensures LatestSequence(hs, s) == 0 && LatestInstance(hs, s) == 0
  {
    if hs != [] { NeverAsked(hs[..|hs| - 1], s); }
  }

  /**
   End to end, address: at FINISHED the buffer reads as a text that starts with
   the address of the latest settings reply and is as long as the longest text
   ever stored for the slot. So it is that address exactly when no settings
   reply to the slot has brought a longer one, as in the first session of a slot.
   */
  lemma {:induction false} NotificationCarriesAddress(hs: seq<Happening>, s: nat)
    requires RunOf(hs).Some? && s < MAX_SIM_SLOTS
    requires var y := RunOf(hs).value; Possible(y, TimerOf(s)) && Notifying(y, s)
    ensures LatestAddress(hs, s).Some?
    ensures var read := AddressText(RunOf(hs).value.clients[s].session.ip);
            var t := QmiInet4Ntop(LatestAddress(hs, s).value);
            t <= read && |read| == LongestText(hs, s) &&
            (read == t <==> NoneLonger(hs, s, |t|)) &&
            (Sessions(hs, s) == 1 ==> read == t)
  {
    RunsAgree(hs);
    ClientReads(RunOf(hs).value.clients[s], hs, s);
  }

  lemma {:induction false} ClientReads(c: Serial, hs: seq<Happening>, s: nat)
    requires ClientOk(c, hs, s) && c.stored.Some?
    ensures var read, t := AddressText(c.session.ip), QmiInet4Ntop(c.stored.value);
            t <= read && |read| == LongestText(hs, s) && (read == t <==> NoneLonger(hs, s, |t|)) &&
            (Sessions(hs, s) == 1 ==> read == t)
  {
    LongestIs(hs, s, |QmiInet4Ntop(c.stored.value)|);
    StoredReads(c.session.ip, c.ipBefore, LongestText(hs, s), c.stored.value);
  }

  lemma {:induction false} StoredReads(ip: seq<Byte>, before: seq<Byte>, n: nat, address: DWord)
    requires |before| == IP_BUFFER_SIZE && ip == Wds.StoreAddress(before, address) && Filled(ip, n)
    ensures var read, t := AddressText(ip), QmiInet4Ntop(address);
            t <= read && |read| == n && (read == t <==> n <= |t|) && (before == Wds.FRESH.ip ==> read == t)
  {
    var t := QmiInet4Ntop(address);
    TextIs(ip, n);
    assert ip[..|t|] == t;
    if n < |t| { assert ip[|t| - 1] == 0; }
    if before == Wds.FRESH.ip { StoredTextExact(before, 0, address); }
  }

  /** The happening is the tick of a finished session, which sends an indication. */
  predicate Indicates(y: System, h: Happening) {
    h.TimerOf? && h.slot < MAX_SIM_SLOTS && Notifying(y, h.slot)
  }

  /** How many indications a run has sent. */
  function Indications(hs: seq<Happening>): nat {
    if hs == [] then 0
    else
      var front, h := hs[..|hs| - 1], hs[|hs| - 1];
      Indications(front) + if RunOf(front).Some? && Indicates(RunOf(front).value, h) then 1 else 0
  }

  lemma {:induction false} StepNumbers(y: System, hs: seq<Happening>, h: Happening)
    requires SystemOk(y, hs) && Possible(y, h)
    ensures Proceed(y, h).server.transactionId ==
            if Indicates(y, h) then NextTransaction(y.server.transactionId) else y.server.transactionId
  {
    if Indicates(y, h) {
      assert ClientOk(y.clients[h.slot], hs, h.slot);
      ResolvesTo(y, hs, h.slot);
    }
  }

  lemma {:induction false} RunGrows(front: seq<Happening>, h: Happening)
    requires RunOf(front + [h]).Some?
    ensures RunOf(front).Some? && Possible(RunOf(front).value, h)
    ensures RunOf(front + [h]).value == Proceed(RunOf(front).value, h)
    ensures Indications(front + [h]) == Indications(front) + if Indicates(RunOf(front).value, h) then 1 else 0
  {
    var hs := front + [h];
    assert hs[..|hs| - 1] == front && hs[|hs| - 1] == h;
  }

  /** In every run the transaction id is that of the last indication sent, numbered 1 to 99 and around again. */
  lemma {:induction false} IndicationsNumbered(hs: seq<Happening>)
    requires RunOf(hs).Some?
    ensures RunOf(hs).value.server.transactionId == DcmRuns.NthTransaction(Indications(hs))
    decreases |hs|
  {
    if hs != [] {
      var front, h := hs[..|hs| - 1], hs[|hs| - 1];
      assert hs == front + [h];
      RunGrows(front, h);
      IndicationsNumbered(front);
      RunsAgree(front);
      StepNumbers(RunOf(front).value, front, h);
      DcmRuns.NextNth(Indications(front));
    }
  }
}
