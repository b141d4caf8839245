/**
 Progress of the whole system: the turns of one slot follow `WdsSerial.Drive`
 whatever happens to the other slot between them, so an activation ends in an
 address indication. The runs in which that indication is not what the request
 asked for are exhibited here too.
 */
module Progress {
  import opened Bytes
  import opened Options
  import opened Tlvs
  import opened Inet
  import opened Dcm
  import opened DcmMessages
  import Wds
  import opened WdsSerial
  import opened EndToEnd

  /** What happens before each turn of the slot looked at. */
  type Meanwhile = nat -> seq<Happening>

  /** The happening does not concern slot `s`. */
  predicate Elsewhere(h: Happening, s: nat) {
    match h
    case Asks(_) => !AsksFor(h, s)
    case TimerOf(t) => t != s
    case ReplyTo(t, _) => t != s
  }

  /** What cannot happen is skipped. */
  function Extended(hs: seq<Happening>, h: Happening): (r: seq<Happening>)
    requires RunOf(hs).Some?
    ensures RunOf(r).Some?
    ensures RunOf(r).value == if Possible(RunOf(hs).value, h) then Proceed(RunOf(hs).value, h) else RunOf(hs).value
  {
    assert (hs + [h])[..|hs|] == hs;
    if Possible(RunOf(hs).value, h) then hs + [h] else hs
  }

  /** The history with what happens elsewhere behind it. */
  function Aside(hs: seq<Happening>, more: seq<Happening>, s: nat): (r: seq<Happening>)
    requires RunOf(hs).Some?
    ensures RunOf(r).Some?
    decreases |more|
  {
    if more == [] then hs
    else
      var r, h := Aside(hs, more[..|more| - 1], s), more[|more| - 1];
      if Elsewhere(h, s) then Extended(r, h) else r
  }

  /** The turn of slot `s`: the reply that is due, else a tick. */
  function TurnOf(y: System, s: nat, modem: Modem, n: nat): Happening
    requires s < MAX_SIM_SLOTS
  {
    var c := y.clients[s];
    if c.pending.Some? then ReplyTo(s, modem(n, c)) else TimerOf(s)
  }

  /** The history after `n` turns of slot `s`, and what happened elsewhere before each. */
  function Played(hs: seq<Happening>, s: nat, modem: Modem, others: Meanwhile, n: nat): (r: seq<Happening>)
    requires RunOf(hs).Some? && s < MAX_SIM_SLOTS
    ensures RunOf(r).Some?
    decreases n, 0
  {
    if n == 0 then hs
    else
      var p := BeforeTurn(hs, s, modem, others, n - 1);
      Extended(p, TurnOf(RunOf(p).value, s, modem, n - 1))
  }

  /** The history up to turn `n` of slot `s`. */
  function BeforeTurn(hs: seq<Happening>, s: nat, modem: Modem, others: Meanwhile, n: nat): (r: seq<Happening>)
    requires RunOf(hs).Some? && s < MAX_SIM_SLOTS
    ensures RunOf(r).Some?
    decreases n, 1
  {
    Aside(Played(hs, s, modem, others, n), others(n), s)
  }

  // ---- the turns of one slot are a serialised session ---------------------------------------------

  lemma {:induction false} AsideLeaves(hs: seq<Happening>, more: seq<Happening>, s: nat)
    requires RunOf(hs).Some? && s < MAX_SIM_SLOTS
    ensures RunOf(Aside(hs, more, s)).value.clients[s] == RunOf(hs).value.clients[s]
    decreases |more|
  {
    if more != [] { AsideLeaves(hs, more[..|more| - 1], s); }
  }

  lemma {:induction false} TurnDrives(y: System, s: nat, modem: Modem, n: nat)
    requires s < MAX_SIM_SLOTS
    ensures var h := TurnOf(y, s, modem, n);
            var c := y.clients[s];
            (Possible(y, h) <==> Enabled(c, Due(c, modem, n))) &&
            (Possible(y, h) ==> Proceed(y, h).clients[s] == Next(c, Due(c, modem, n)))
  {
  }

  lemma {:induction false} TurnLeads(hs: seq<Happening>, s: nat, modem: Modem, n: nat)
    requires RunOf(hs).Some? && s < MAX_SIM_SLOTS
    ensures var c := RunOf(hs).value.clients[s];
            var h := TurnOf(RunOf(hs).value, s, modem, n);
            RunOf(Extended(hs, h)).value.clients[s] == Onward(c, Due(c, modem, n))
  {
    TurnDrives(RunOf(hs).value, s, modem, n);
  }

  lemma {:induction false} PlayedLeads(hs: seq<Happening>, s: nat, modem: Modem, others: Meanwhile, n: nat)
    requires RunOf(hs).Some? && s < MAX_SIM_SLOTS
    ensures var c := RunOf(Played(hs, s, modem, others, n)).value.clients[s];
            RunOf(BeforeTurn(hs, s, modem, others, n)).value.clients[s] == c &&
            RunOf(Played(hs, s, modem, others, n + 1)).value.clients[s] == Onward(c, Due(c, modem, n))
  {
    AsideLeaves(Played(hs, s, modem, others, n), others(n), s);
    TurnLeads(BeforeTurn(hs, s, modem, others, n), s, modem, n);
  }

  /** States that follow each other as `Drive` has it are those of `Drive`. */
  lemma {:induction false} Driven(run: nat -> Serial, modem: Modem, n: nat)
    requires forall k: nat :: run(k + 1) == Onward(run(k), Due(run(k), modem, k))
    ensures run(n) == Drive(run(0), modem, n)
    decreases n
  {
    if n > 0 {
      Driven(run, modem, n - 1);
      assert run(n - 1 + 1) == Onward(run(n - 1), Due(run(n - 1), modem, n - 1));
    }
  }

  /** Simulation: in any interleaving the slot goes through the states of `Drive`. */
  lemma {:induction false} PlayedDrives(hs: seq<Happening>, s: nat, modem: Modem, others: Meanwhile, n: nat)
    requires RunOf(hs).Some? && s < MAX_SIM_SLOTS
    ensures RunOf(Played(hs, s, modem, others, n)).value.clients[s] == Drive(RunOf(hs).value.clients[s], modem, n)
    ensures RunOf(BeforeTurn(hs, s, modem, others, n)).value.clients[s] ==
            Drive(RunOf(hs).value.clients[s], modem, n)
  {
    var run := (k: nat) => RunOf(Played(hs, s, modem, others, k)).value.clients[s];
    forall k: nat ensures run(k + 1) == Onward(run(k), Due(run(k), modem, k)) {
      PlayedLeads(hs, s, modem, others, k);
    }
    Driven(run, modem, n);
    PlayedLeads(hs, s, modem, others, n);
    assert run(0) == RunOf(hs).value.clients[s] && run(n) == RunOf(Played(hs, s, modem, others, n)).value.clients[s];
  }

  // ---- what the history of the turns says about requests --------------------------------------------

  /** Two histories tell the same of the activations of slot `t`. */
  predicate SameRequests(hs: seq<Happening>, more: seq<Happening>, t: nat) {
    && LatestSequence(hs, t) == LatestSequence(more, t)
    && LatestInstance(hs, t) == LatestInstance(more, t)
    && Sessions(hs, t) == Sessions(more, t)
    && LongestText(hs, t) <= LongestText(more, t)
  }

  /** Nothing that happens elsewhere activates slot `t`. */
  predicate NoneAsks(more: seq<Happening>, s: nat, t: nat) {
    forall k :: 0 <= k < |more| && Elsewhere(more[k], s) ==> !AsksFor(more[k], t)
  }

  lemma {:induction false} SameTransitive(hs: seq<Happening>, more: seq<Happening>, most: seq<Happening>, t: nat)
    requires SameRequests(hs, more, t) && SameRequests(more, most, t)
    ensures SameRequests(hs, most, t)
  {
  }

  lemma {:induction false} ExtendedSame(hs: seq<Happening>, h: Happening, t: nat)
    requires RunOf(hs).Some? && !AsksFor(h, t)
    ensures SameRequests(hs, Extended(hs, h), t)
  {
    HistoryOf(hs, h, t);
  }

  lemma {:induction false} AsideSame(hs: seq<Happening>, more: seq<Happening>, s: nat, t: nat)
    requires RunOf(hs).Some? && NoneAsks(more, s, t)
    ensures SameRequests(hs, Aside(hs, more, s), t)
    decreases |more|
  {
    if more != [] {
      var front, h := more[..|more| - 1], more[|more| - 1];
      assert forall k :: 0 <= k < |front| ==> front[k] == more[k];
      AsideSame(hs, front, s, t);
      var r := Aside(hs, front, s);
      if Elsewhere(h, s) {
        ExtendedSame(r, h, t);
        SameTransitive(hs, r, Extended(r, h), t);
      }
    }
  }

  lemma {:induction false} BeforeTurnAdds(hs: seq<Happening>, s: nat, modem: Modem, others: Meanwhile, n: nat, t: nat)
    requires RunOf(hs).Some? && s < MAX_SIM_SLOTS && NoneAsks(others(n), s, t)
    ensures SameRequests(Played(hs, s, modem, others, n), BeforeTurn(hs, s, modem, others, n), t)
  {
    AsideSame(Played(hs, s, modem, others, n), others(n), s, t);
  }

  lemma {:induction false} TurnAdds(hs: seq<Happening>, s: nat, modem: Modem, others: Meanwhile, n: nat, t: nat)
    requires RunOf(hs).Some? && s < MAX_SIM_SLOTS && NoneAsks(others(n), s, t)
    ensures SameRequests(Played(hs, s, modem, others, n), Played(hs, s, modem, others, n + 1), t)
  {
    BeforeTurnAdds(hs, s, modem, others, n, t);
    var q := BeforeTurn(hs, s, modem, others, n);
    var h := TurnOf(RunOf(q).value, s, modem, n);
    assert Played(hs, s, modem, others, n + 1) == Extended(q, h);
    ExtendedSame(q, h, t);
    SameTransitive(Played(hs, s, modem, others, n), q, Extended(q, h), t);
  }

  /** A reflexive and transitive relation that every step keeps, the whole run keeps. */
  lemma {:induction false} Along(rel: (seq<Happening>, seq<Happening>) -> bool,
                                 run: nat -> seq<Happening>, n: nat)
    requires forall x :: rel(x, x)
    requires forall x, y, z :: rel(x, y) && rel(y, z) ==> rel(x, z)
    requires forall k: nat :: rel(run(k), run(k + 1))
    ensures rel(run(0), run(n))
    decreases n
  {
    if n > 0 {
      var k: nat := n - 1;
      Along(rel, run, k);
      assert rel(run(0), run(k)) && rel(run(k), run(k + 1));
    }
  }

  lemma {:induction false} PlayedSame(hs: seq<Happening>, s: nat, modem: Modem, others: Meanwhile, n: nat, t: nat)
    requires RunOf(hs).Some? && s < MAX_SIM_SLOTS
    requires forall k: nat :: NoneAsks(others(k), s, t)
    ensures SameRequests(hs, Played(hs, s, modem, others, n), t)
  {
    var rel := (x: seq<Happening>, y: seq<Happening>) => SameRequests(x, y, t);
    var run := (k: nat) => Played(hs, s, modem, others, k);
    forall k: nat ensures rel(run(k), run(k + 1)) {
      TurnAdds(hs, s, modem, others, k, t);
    }
    Along(rel, run, n);
    assert run(0) == hs && run(n) == Played(hs, s, modem, others, n);
  }

  lemma {:induction false} BeforeTurnSame(hs: seq<Happening>, s: nat, modem: Modem, others: Meanwhile, n: nat, t: nat)
    requires RunOf(hs).Some? && s < MAX_SIM_SLOTS
    requires forall k: nat :: NoneAsks(others(k), s, t)
    ensures SameRequests(hs, BeforeTurn(hs, s, modem, others, n), t)
  {
    PlayedSame(hs, s, modem, others, n, t);
    BeforeTurnAdds(hs, s, modem, others, n, t);
    SameTransitive(hs, Played(hs, s, modem, others, n), BeforeTurn(hs, s, modem, others, n), t);
  }

  // ---- progress ----------------------------------------------------------------------------------

  /** At the end of this run the next tick of slot `s` sends an indication. */
  predicate AboutToSend(hs: seq<Happening>, s: nat) {
    && s < MAX_SIM_SLOTS && RunOf(hs).Some?
    && Possible(RunOf(hs).value, TimerOf(s)) && Notifying(RunOf(hs).value, s)
  }

  /** Turn `n` of slot `s` sends. */
  predicate SendsAt(hs: seq<Happening>, s: nat, modem: Modem, others: Meanwhile, n: nat)
    requires RunOf(hs).Some? && s < MAX_SIM_SLOTS
  {
    AboutToSend(BeforeTurn(hs, s, modem, others, n), s)
  }

  lemma {:induction false} NoticeMeansTick(c: Serial, e: WdsSerial.Event)
    requires Inv(c) && !e.Initiates?
    ensures Onward(c, e).notices > c.notices <==> e.Ticks? && Enabled(c, e) && c.session.step == Wds.FINISHED
  {
  }

  /** The first of the events by which a session has notified. */
  lemma {:induction false} FirstNotice(c: Serial, modem: Modem, n: nat) returns (k: nat)
    requires Drive(c, modem, n).notices > c.notices
    ensures k < n && Drive(c, modem, k).notices <= c.notices < Drive(c, modem, k + 1).notices
    decreases n
  {
    if Drive(c, modem, n - 1).notices > c.notices {
      k := FirstNotice(c, modem, n - 1);
    } else {
      k := n - 1;
    }
  }

  lemma {:induction false} SendsIffNotifies(hs: seq<Happening>, s: nat, modem: Modem, others: Meanwhile, n: nat)
    requires RunOf(hs).Some? && s < MAX_SIM_SLOTS
    ensures var c := RunOf(hs).value.clients[s];
            SendsAt(hs, s, modem, others, n) <==> Drive(c, modem, n + 1).notices > Drive(c, modem, n).notices
  {
    var c := RunOf(hs).value.clients[s];
    SlotKeepsInv(hs, s);
    DriveKeeps(c, modem, 0, n);
    PlayedDrives(hs, s, modem, others, n);
    SendsIffDue(BeforeTurn(hs, s, modem, others, n), s, modem, n);
  }

  lemma {:induction false} SlotKeepsInv(hs: seq<Happening>, s: nat)
    requires RunOf(hs).Some? && s < MAX_SIM_SLOTS
    ensures Inv(RunOf(hs).value.clients[s])
  {
    RunsAgree(hs);
    assert ClientOk(RunOf(hs).value.clients[s], hs, s);
  }

  lemma {:induction false} SendsIffDue(hs: seq<Happening>, s: nat, modem: Modem, n: nat)
    requires RunOf(hs).Some? && s < MAX_SIM_SLOTS
    ensures var c := RunOf(hs).value.clients[s];
            AboutToSend(hs, s) <==> Onward(c, Due(c, modem, n)).notices > c.notices
  {
    var c := RunOf(hs).value.clients[s];
    SlotKeepsInv(hs, s);
    NoticeMeansTick(c, Due(c, modem, n));
  }

  ghost predicate Sends(hs: seq<Happening>, s: nat, modem: Modem, others: Meanwhile)
    requires RunOf(hs).Some? && s < MAX_SIM_SLOTS
  {
    exists n: nat :: SendsAt(hs, s, modem, others, n)
  }

  /**
   In any run, for a slot with a live timer, under a modem that answers and
   fails finitely often, and whatever happens to the other slot meanwhile: an
   indication is sent exactly when the link is not refused.
   */
  lemma {:induction false} SendsIffLinkNotRefused(hs: seq<Happening>, s: nat, modem: Modem, others: Meanwhile,
                                                  budget: nat)
    requires RunOf(hs).Some? && s < MAX_SIM_SLOTS
    requires var c := RunOf(hs).value.clients[s];
             c.timers > 0 && Faithful(c, modem) && forall k: nat :: Failures(c, modem, k) <= budget
    ensures Sends(hs, s, modem, others) <==> !LinkRefused(RunOf(hs).value.clients[s], modem)
  {
    var c := RunOf(hs).value.clients[s];
    SlotKeepsInv(hs, s);
    FinishesFrom(c, modem, budget);
    if Finishes(c, modem) {
      var n: nat :| Drive(c, modem, n).notices > c.notices;
      var k := FirstNotice(c, modem, n);
      SendsIffNotifies(hs, s, modem, others, k);
      assert SendsAt(hs, s, modem, others, k);
    }
    if n: nat :| SendsAt(hs, s, modem, others, n) {
      SendsIffNotifies(hs, s, modem, others, n);
      DriveKeeps(c, modem, 0, n);
      assert Drive(c, modem, n + 1).notices > c.notices;
    }
  }

  /** A slot just activated has a live timer and nothing behind it. */
  lemma {:induction false} JustActivated(hs: seq<Happening>, s: nat)
    requires RunOf(hs).Some? && s < MAX_SIM_SLOTS && hs != [] && AsksFor(hs[|hs| - 1], s)
    ensures var c := RunOf(hs).value.clients[s];
            c.timers > 0 && !c.linkRefused && c.lastStart.None? && c.stored.None? && c.pending.None?
  {
  }

  /**
   End to end, progress: after an activation of slot `s`, under a modem that
   answers, fails finitely often and does not refuse the link, and whatever
   happens to the other slot meanwhile, an indication is sent. It carries the
   sequence and instance of that activation exactly when slot 1 has been
   activated by then, or those are zero, and the address of the latest settings
   reply exactly when none before it was longer as text.
   */
  lemma {:induction false} ActivationIsAnnounced(hs: seq<Happening>, s: nat, modem: Modem, others: Meanwhile,
                                                 budget: nat, slack: seq<Byte>) returns (n: nat)
    requires RunOf(hs).Some? && s < MAX_SIM_SLOTS && hs != [] && AsksFor(hs[|hs| - 1], s)
    requires var c := RunOf(hs).value.clients[s];
             Faithful(c, modem) && !LinkRefused(c, modem) && forall k: nat :: Failures(c, modem, k) <= budget
    ensures SendsAt(hs, s, modem, others, n)
    ensures var p := BeforeTurn(hs, s, modem, others, n);
            var y := RunOf(p).value;
            var sent := Notification(y, s).1;
            sent.Some? &&
            (AnnouncesLatest(hs, s, sent.value, slack, AddressText(y.clients[s].session.ip)) <==>
               Sessions(p, 1) > 0 || (LatestSequence(hs, s) == 0 && LatestInstance(hs, s) == 0))
    ensures var p := BeforeTurn(hs, s, modem, others, n);
            LatestAddress(p, s).Some? &&
            var t := QmiInet4Ntop(LatestAddress(p, s).value);
            AddressText(RunOf(p).value.clients[s].session.ip) == t <==> NoneLonger(p, s, |t|)
  {
    JustActivated(hs, s);
    SendsIffLinkNotRefused(hs, s, modem, others, budget);
    n :| SendsAt(hs, s, modem, others, n);
    BeforeTurnSame(hs, s, modem, others, n, s);
    NotificationNamesSession(BeforeTurn(hs, s, modem, others, n), s, slack);
    NotificationCarriesAddress(BeforeTurn(hs, s, modem, others, n), s);
  }

  // ---- runs that fall short ----------------------------------------------------------------------

  /** A run of the turns of slot `s` alone, with a willing modem, up to its indication. */
  lemma {:induction false} Willingly(hs: seq<Happening>, s: nat, start: Wds.StartResult, address: DWord)
    returns (p: seq<Happening>)
    requires RunOf(hs).Some? && s < MAX_SIM_SLOTS && hs != [] && AsksFor(hs[|hs| - 1], s)
    requires !start.NoOutput? && !start.CallFailed?
    ensures AboutToSend(p, s)
    ensures forall t :: 0 <= t < MAX_SIM_SLOTS ==> SameRequests(hs, p, t)
    ensures LatestAddress(p, s) == Some(address)
    ensures NetworkUp(RunOf(p).value.clients[s]) <==> start.Started?
  {
    var modem, others: Meanwhile := WillingModem(start, address), n => [];
    var c := RunOf(hs).value.clients[s];
    JustActivated(hs, s);
    SlotKeepsInv(hs, s);
    WillingAnswers(c, modem, start, address);
    NeverFails(c, modem, start, address);
    SendsIffLinkNotRefused(hs, s, modem, others, 0);
    var n: nat :| SendsAt(hs, s, modem, others, n);
    p := BeforeTurn(hs, s, modem, others, n);
    forall t | 0 <= t < MAX_SIM_SLOTS ensures SameRequests(hs, p, t) {
      BeforeTurnSame(hs, s, modem, others, n, t);
    }
    PlayedDrives(hs, s, modem, others, n);
    GoesWellAlong(c, modem, start, address, n);
    RunsAgree(p);
    assert ClientOk(RunOf(p).value.clients[s], p, s);
  }

  const SEVENTH := Asks([Item(TLV_SEQUENCE, [7])])

  lemma {:induction false} SeventhAsks()
    ensures AsksFor(SEVENTH, 0) && !AsksFor(SEVENTH, 1) && SlotOf(ActivationOf(SEVENTH.ts)) == 0
    ensures ActivationOf(SEVENTH.ts).sequence == Some(7)
  {
    var ts := SEVENTH.ts;
    assert ValueOf(ts, TLV_SEQUENCE) == Some([7]);
    assert ValueOf(ts, TLV_SUBSCRIPTION) == None && ValueOf(ts, TLV_SLOT) == None && ValueOf(ts, TLV_INSTANCE) == None;
  }

  /** An activation of slot 0 with sequence 7, when nothing is outstanding there. */
  lemma {:induction false} AskSeventh(hs: seq<Happening>) returns (r: seq<Happening>)
    requires RunOf(hs).Some? && RunOf(hs).value.clients[0].pending.None?
    ensures r == hs + [SEVENTH] && RunOf(r).Some?
    ensures AsksFor(r[|r| - 1], 0) && LatestSequence(r, 0) == 7
    ensures Sessions(r, 1) == Sessions(hs, 1) && LongestText(r, 0) == LongestText(hs, 0)
  {
    SeventhAsks();
    r := Extended(hs, SEVENTH);
    HistoryOf(hs, SEVENTH, 0);
    HistoryOf(hs, SEVENTH, 1);
  }

  /** Every session of slot 0 before slot 1 has been activated is announced under entry 1, if it asked for more. */
  lemma {:induction false} Misnamed(hs: seq<Happening>, s: nat, slack: seq<Byte>) returns (p: seq<Happening>)
    requires RunOf(hs).Some? && s < MAX_SIM_SLOTS && hs != [] && AsksFor(hs[|hs| - 1], s)
    requires Sessions(hs, 1) == 0 && LatestSequence(hs, s) != 0
    ensures AboutToSend(p, s) && SameRequests(hs, p, s) && SameRequests(hs, p, 1)
    ensures var y := RunOf(p).value;
            var sent := Notification(y, s).1;
            sent.Some? && !AnnouncesLatest(p, s, sent.value, slack, AddressText(y.clients[s].session.ip))
  {
    p := Willingly(hs, s, Wds.Started(None), 0);
    NotificationNamesSession(p, s, slack);
  }

  /** Slot 0 alone, asked for with sequence 7, is announced under another sequence. */
  lemma {:induction false} SlotZeroMisnamed(slack: seq<Byte>) returns (p: seq<Happening>)
    ensures AboutToSend(p, 0) && LatestSequence(p, 0) == 7 && Sessions(p, 1) == 0
    ensures var y := RunOf(p).value;
            var sent := Notification(y, 0).1;
            sent.Some? && !AnnouncesLatest(p, 0, sent.value, slack, AddressText(y.clients[0].session.ip))
  {
    var hs := AskSeventh([]);
    p := Misnamed(hs, 0, slack);
  }

  /** Behind its indication a slot can be activated again. */
  lemma {:induction false} SendAndAsk(hs: seq<Happening>) returns (r: seq<Happening>)
    requires AboutToSend(hs, 0)
    ensures RunOf(r).Some? && r != [] && AsksFor(r[|r| - 1], 0) && LongestText(r, 0) == LongestText(hs, 0)
  {
    var told := Extended(hs, TimerOf(0));
    assert told == hs + [TimerOf(0)];
    HistoryOf(hs, TimerOf(0), 0);
    r := AskSeventh(told);
  }

  /** A session given a shorter address than one before it reads as something else. */
  lemma {:induction false} Misread(hs: seq<Happening>, s: nat, address: DWord) returns (p: seq<Happening>)
    requires RunOf(hs).Some? && s < MAX_SIM_SLOTS && hs != [] && AsksFor(hs[|hs| - 1], s)
    requires |QmiInet4Ntop(address)| < LongestText(hs, s)
    ensures AboutToSend(p, s) && LatestAddress(p, s) == Some(address)
    ensures AddressText(RunOf(p).value.clients[s].session.ip) != QmiInet4Ntop(address)
  {
    p := Willingly(hs, s, Wds.Started(None), address);
    assert SameRequests(hs, p, s);
    NotificationCarriesAddress(p, s);
  }

  /** A first session of slot 0 with the address 255.255.255.255. */
  lemma {:induction false} LongFirst() returns (p: seq<Happening>)
    ensures AboutToSend(p, 0) && LongestText(p, 0) >= 15
  {
    LongestAndShortest();
    var hs := AskSeventh([]);
    p := Willingly(hs, 0, Wds.Started(None), 0xFFFF_FFFF);
    NotificationCarriesAddress(p, 0);
  }

  /** The second session of slot 0 gets the address 0.0.0.0 after that, and announces something else. */
  lemma {:induction false} ShorterAddressMisread() returns (p: seq<Happening>)
    ensures AboutToSend(p, 0) && LatestAddress(p, 0) == Some(0)
    ensures AddressText(RunOf(p).value.clients[0].session.ip) != QmiInet4Ntop(0)
  {
    LongestAndShortest();
    var hs := LongFirst();
    hs := SendAndAsk(hs);
    p := Misread(hs, 0, 0);
  }

  lemma {:induction false} LongestAndShortest()
    ensures |QmiInet4Ntop(0xFFFF_FFFF)| == 15 && |QmiInet4Ntop(0)| == 7
  {
    assert |Decimal(255)| == 3 && |Decimal(0)| == 1;
    assert Octets(0xFFFF_FFFF) == Quad(255, 255, 255, 255) && Octets(0) == Quad(0, 0, 0, 0);
  }

  /** A start request answered with an error other than CALL_FAILED: the address goes out, the network never came up. */
  lemma {:induction false} AnnouncedWithoutNetwork() returns (p: seq<Happening>)
    ensures AboutToSend(p, 0) && Notification(RunOf(p).value, 0).1.Some?
    ensures var c := RunOf(p).value.clients[0];
            !NetworkUp(c) && c.session.handle == Wds.NO_HANDLE
  {
    var hs := AskSeventh([]);
    p := Willingly(hs, 0, Wds.OtherError, 0);
    NotificationSent(p, 0);
    RunsAgree(p);
    assert ClientOk(RunOf(p).value.clients[0], p, 0);
  }
}
