/**
 Exactly which replies break a tracked run. Ticks and initiations never do; each
 reply has a guard on the step it meets and the fields later steps rely on, and
 a run is safe throughout if and only if every reply passes its guard.
 */
module WdsExact {
  import opened Bytes
  import opened Options
  import Inet
  import opened Wds
  import WdsSerial
  import opened WdsTracked

  // ---- from one step to whole runs -----------------------------------------------------------

  /** The states a run goes through, its last one included, all have the property. */
  predicate Throughout(es: seq<Event>, p: States) {
    && After(es).Some? && p(After(es).value)
    && (es == [] || Throughout(es[..|es| - 1], p))
  }

  /** All events of a run have the property, each in the state it meets. */
  predicate EachEvent(es: seq<Event>, g: (Tracked, Event) -> bool) {
    es == [] || (EachEvent(es[..|es| - 1], g) &&
                 match After(es[..|es| - 1])
                 case None => false
                 case Some(c) => g(c, es[|es| - 1]))
  }

  /** A property that each event keeps exactly under its guard is kept throughout exactly under all guards. */
  lemma {:induction false} ThroughoutIff(es: seq<Event>, p: States, g: (Tracked, Event) -> bool)
    requires After(es).Some?
    requires p(BEGIN) && forall c, e :: p(c) && Enabled(c, e) ==> (p(Next(c, e)) <==> g(c, e))
    ensures Throughout(es, p) <==> EachEvent(es, g)
  {
    if es != [] {
      var front, e := es[..|es| - 1], es[|es| - 1];
      ThroughoutIff(front, p, g);
      var c := After(front).value;
      assert After(es).value == Next(c, e);
      if Throughout(front, p) {
        assert p(c);
        assert p(Next(c, e)) <==> g(c, e);
      }
    }
  }

  // ---- the step stays in range ---------------------------------------------------------------

  predicate InRange(step: Byte) {
    step <= BIND_DATA_PORT_IPV6 || step == FINISHED
  }

  /** Replies that count the step up. */
  predicate Advances(r: Reply) {
    match r
    case LinkAdded(mux) => mux.Some?
    case Bound(ok) => ok
    case NetworkStarted(result) => result.OtherError? || result.Started?
    case CurrentSettings(netmask, address) => netmask.Some? && address.Some?
    case _ => false
  }

  /** The reply does not count up from 13 or 99, nor down from 0 or 99. */
  predicate KeepsRange(step: Byte, r: Reply) {
    && (Advances(r) ==> step != BIND_DATA_PORT_IPV6 && step != FINISHED)
    && (r == NetworkStarted(NoOutput) ==> step != GET_PROFILES && step != FINISHED)
  }

  lemma {:induction false} StepLeavesIff(s: Session, r: Reply)
    requires InRange(s.step) && Expected(s, r)
    ensures InRange(OnReply(s, r).0.step) <==> KeepsRange(s.step, r)
  {
  }

  predicate RangeAt(c: Tracked) {
    InRange(c.now.session.step)
  }

  predicate RangeKept(c: Tracked, e: Event) {
    e.Replies? ==> KeepsRange(c.now.session.step, e.reply)
  }

  lemma {:induction false} RangeNext(c: Tracked, e: Event)
    requires RangeAt(c) && Enabled(c, e)
    ensures RangeAt(Next(c, e)) <==> RangeKept(c, e)
  {
    match e
    case Initiates(_) =>
    case Ticks => TickPasses(c.now.session);
    case Replies(_, r) => StepLeavesIff(c.now.session, r);
  }

  /**
   In every tracked run: the step has stayed in 0..13 or 99 exactly when no
   reply counted it up from 13 or 99 or down from 0 or 99.
   */
  lemma {:induction false} RangeIff(es: seq<Event>)
    requires After(es).Some?
    ensures Throughout(es, RangeAt) <==> EachEvent(es, RangeKept)
  {
    forall c, e | RangeAt(c) && Enabled(c, e) ensures RangeAt(Next(c, e)) <==> RangeKept(c, e) {
      RangeNext(c, e);
    }
    ThroughoutIff(es, RangeAt, RangeKept);
  }

  // ---- link, bind, start and address facts -----------------------------------------------------

  /** The guard under which a profile reply leaves the later steps alone. */
  predicate ProfileFits(s: Session, r: Reply)
    requires Expected(s, r)
  {
    s.step <= SETUP_LINK ||
    match r
    case ProfileList(ps) => ps != Some([])
    case ProfileSettings(mask) =>
      mask != Some(APN_TYPE_MASK_IMS) && (s.profileId != 0 || s.scan.value.i + 1 < |s.scan.value.profiles|)
    case ProfileCreated(p) => p.None?
    case _ => true
  }

  /** The guard under which a start-network reply leaves a session that a later step can rely on. */
  predicate StartFits(c: WdsSerial.Serial, result: StartResult) {
    var s := c.session;
    match result
    case NoOutput => 1 <= s.step <= 11 && s.step != LINK_BRINGUP && s.handle == NO_HANDLE
    case CallFailed => s.step >= LINK_BRINGUP && s.handle == NO_HANDLE && s.ip == c.ipBefore
    case OtherError => (s.step == WAIT_NET_START || s.step == REGISTER_INDICATIONS) && s.handle == NO_HANDLE
    case Started(h) =>
      (s.step == WAIT_NET_START || s.step == REGISTER_INDICATIONS) && (h.None? ==> s.handle == NO_HANDLE)
  }

  /** The guard of every reply: the step it meets, and what the session has been given so far. */
  predicate Fitting(c: WdsSerial.Serial, r: Reply)
    requires Expected(c.session, r)
  {
    var step := c.session.step;
    match r
    case LinkAdded(mux) =>
      mux.Some? ==> SETUP_LINK <= step <= REGISTER_INDICATIONS && step != WAIT_NET_START &&
                    (step == BIND_DATA_PORT ==> c.bound)
    case Bound(ok) => ok ==> step !in [SETUP_LINK, WAIT_NET_START, GET_SETTINGS, BIND_DATA_PORT_IPV6, FINISHED]
    case NetworkStarted(result) => StartFits(c, result)
    case CurrentSettings(netmask, address) => netmask.Some? && address.Some? ==> step == GET_SETTINGS
    case _ => ProfileFits(c.session, r)
  }

  /** What a reply can meet: a safe session that has been initiated. */
  predicate Meets(c: WdsSerial.Serial, r: Reply) {
    SessionOk(c) && Expected(c.session, r) && c.timers + c.notices > 0
  }

  lemma {:induction false} ProfileExact(c: WdsSerial.Serial, r: Reply)
    requires Meets(c, r) && (r.ProfileList? || r.ProfileSettings? || r.ProfileCreated? || r.ProfileModified?)
    ensures SessionOk(WdsSerial.AfterReply(c, r)) <==> Fitting(c, r)
  {
  }

  lemma {:induction false} LinkExact(c: WdsSerial.Serial, r: Reply)
    requires Meets(c, r) && r.LinkAdded?
    ensures SessionOk(WdsSerial.AfterReply(c, r)) <==> Fitting(c, r)
  {
    assert Inc(c.session.step) == c.session.step + 1;
    if r.muxId.None? {
      assert WdsSerial.AfterReply(c, r) == c.(linkRefused := true, pending := None);
    }
  }

  lemma {:induction false} BoundExact(c: WdsSerial.Serial, r: Reply)
    requires Meets(c, r) && r.Bound?
    ensures SessionOk(WdsSerial.AfterReply(c, r)) <==> Fitting(c, r)
  {
  }

  lemma {:induction false} StartExact(c: WdsSerial.Serial, r: Reply)
    requires Meets(c, r) && r.NetworkStarted?
    ensures SessionOk(WdsSerial.AfterReply(c, r)) <==> Fitting(c, r)
  {
  }

  lemma {:induction false} SettingsExact(c: WdsSerial.Serial, r: Reply)
    requires Meets(c, r) && r.CurrentSettings?
    ensures SessionOk(WdsSerial.AfterReply(c, r)) <==> Fitting(c, r)
  {
    var step := c.session.step;
    assert Inc(step) == step + 1;
    if r.netmask.None? || r.address.None? { assert WdsSerial.AfterReply(c, r) == c.(pending := None); }
  }

  /** A reply leaves a safe session safe exactly when it passes its guard. */
  lemma {:induction false} ReplyExact(c: WdsSerial.Serial, r: Reply)
    requires Meets(c, r)
    ensures SessionOk(WdsSerial.AfterReply(c, r)) <==> Fitting(c, r)
    ensures var d := WdsSerial.AfterReply(c, r); d.timers == c.timers && d.notices == c.notices
  {
    match r
    case LinkAdded(_) => LinkExact(c, r);
    case Bound(_) => BoundExact(c, r);
    case NetworkStarted(_) => StartExact(c, r);
    case CurrentSettings(_, _) => SettingsExact(c, r);
    case _ => ProfileExact(c, r);
  }

  /** The session is safe and no timer has given up. */
  predicate Safe(c: Tracked) {
    SessionOk(c.now) && Counted(c)
  }

  predicate FitsAt(c: Tracked, e: Event) {
    e.Replies? ==> Expected(c.now.session, e.reply) && Fitting(c.now, e.reply)
  }

  lemma {:induction false} SafeNext(c: Tracked, e: Event)
    requires Safe(c) && Enabled(c, e)
    ensures Safe(Next(c, e)) <==> FitsAt(c, e)
  {
    match e
    case Initiates(slot) =>
    case Ticks => SessionTicks(c.now.(pending := None));
    case Replies(_, r) => ReplyExact(c.now, r);
  }

  /**
   In every tracked run, whatever piles up and in whatever order it is
   answered: the session has been safe at every moment and no timer has given
   up, exactly when every reply passed its guard in the state it met.
   */
  lemma {:induction false} SafeIffFitting(es: seq<Event>)
    requires After(es).Some?
    ensures Throughout(es, Safe) <==> EachEvent(es, FitsAt)
  {
    forall c, e | Safe(c) && Enabled(c, e) ensures Safe(Next(c, e)) <==> FitsAt(c, e) {
      SafeNext(c, e);
    }
    ThroughoutIff(es, Safe, FitsAt);
  }

  /** Timely replies pass their guards. */
  lemma {:induction false} TimelyFits(c: Tracked, e: Event)
    requires Ok(c) && Enabled(c, e) && Timely(c, e)
    ensures FitsAt(c, e)
  {
    OkNext(c, e);
    SafeNext(c, e);
  }

  // ---- the profile ---------------------------------------------------------------------------------

  predicate ProfileIsChosen(c: Tracked) {
    c.now.session.profileId == c.chosen
  }

  /** An answer with the IMS mask is put down to the profile that was asked about. */
  predicate Attributed(c: Tracked, e: Event) {
    Enabled(c, e) && e.Replies? && e.reply == ProfileSettings(Some(0x02)) ==>
      var Scan(ps, i) := c.now.session.scan.value;
      c.outstanding[e.k].request == GetProfileSettings(ps[i])
  }

  lemma {:induction false} ReportChooses(c: Tracked, k: nat, r: Reply)
    requires ProfileIsChosen(c) && Enabled(c, Replies(k, r)) && r.ProfileSettings?
    ensures ProfileIsChosen(Next(c, Replies(k, r))) <==> Attributed(c, Replies(k, r))
  {
    var q := c.outstanding[k].request;
    assert q.GetProfileSettings?;
  }

  lemma {:induction false} OthersChoose(c: Tracked, k: nat, r: Reply)
    requires ProfileIsChosen(c) && Enabled(c, Replies(k, r)) && !r.ProfileSettings?
    ensures ProfileIsChosen(Next(c, Replies(k, r)))
  {
  }

  lemma {:induction false} ChosenNext(c: Tracked, e: Event)
    requires ProfileIsChosen(c) && Enabled(c, e)
    ensures ProfileIsChosen(Next(c, e)) <==> Attributed(c, e)
  {
    if e.Replies? {
      if e.reply.ProfileSettings? { ReportChooses(c, e.k, e.reply); } else { OthersChoose(c, e.k, e.reply); }
    }
  }

  /**
   In every tracked run: the session has had the profile last created or last
   reported throughout, exactly when every answer with the IMS mask came while
   the scan stood at the profile asked about.
   */
  lemma {:induction false} ProfileIff(es: seq<Event>)
    requires After(es).Some?
    ensures Throughout(es, ProfileIsChosen) <==> EachEvent(es, Attributed)
  {
    forall c, e | ProfileIsChosen(c) && Enabled(c, e) ensures ProfileIsChosen(Next(c, e)) <==> Attributed(c, e) {
      ChosenNext(c, e);
    }
    ThroughoutIff(es, ProfileIsChosen, Attributed);
  }

  /** A start request of this initiation names the profile chosen. */
  predicate StartOk(c: Tracked, t: Sent) {
    t.request.StartNetwork? && t.initiation == c.initiations ==>
      t.request.profile == c.chosen && c.now.session.step >= SETUP_LINK
  }

  predicate StartsOk(c: Tracked) {
    forall k :: 0 <= k < |c.outstanding| ==>
      StartOk(c, c.outstanding[k]) && c.outstanding[k].initiation <= c.initiations
  }

  lemma {:induction false} ChoiceAnswered(s: Session, t: Sent, r: Reply, chosen: Byte)
    requires StampOk(t) && WdsSerial.Answers(t.request, r) && Expected(s, r) && s.step >= SETUP_LINK
    requires OnReply(s, r) == (s, None) || s.step == t.step
    ensures ChosenBy(t.request, r, chosen) == chosen && OnReply(s, r).0.step >= SETUP_LINK
  {
  }

  /** From SETUP_LINK on, in time, the choice stays. */
  lemma {:induction false} ChoiceStays(c: Tracked, e: Event)
    requires Ok(c) && Enabled(c, e) && !e.Initiates? && Timely(c, e) && c.now.session.step >= SETUP_LINK
    ensures Next(c, e).chosen == c.chosen && Next(c, e).now.session.step >= SETUP_LINK
  {
    if e.Replies? { ChoiceAnswered(c.now.session, c.outstanding[e.k], e.reply, c.chosen); }
  }

  lemma {:induction false} TickStarts(s: WdsSerial.Serial)
    requires s.timers > 0 && s.pending.None?
    ensures var d := WdsSerial.AfterTick(s);
            d.pending.Some? && d.pending.value.StartNetwork? ==>
              s.session.step == DO_START_NETWORK && d.pending.value.profile == s.session.profileId
  {
  }

  lemma {:induction false} NewStart(c: Tracked, e: Event, t: Sent)
    requires Ok(c) && Enabled(c, e) && !e.Initiates?
    requires t in Next(c, e).outstanding && t !in c.outstanding
    ensures t.initiation == c.initiations
    ensures t.request.StartNetwork? ==>
              c.now.session.step == DO_START_NETWORK && t.request.profile == c.now.session.profileId
  {
    NewRequest(c, e, t);
    match e
    case Ticks =>
      var s := c.now.(pending := None);
      JustSent(c, WdsSerial.AfterTick(s), c.outstanding, t);
      TickStarts(s);
    case Replies(k, r) =>
      if t in Without(c.outstanding, k) { WithoutIn(c.outstanding, k, t); }
      var b := c.(boundMux := Next(c, e).boundMux, chosen := Next(c, e).chosen);
      JustSent(b, WdsSerial.AfterReply(c.now, r), Without(c.outstanding, k), t);
      ReplyBindsNothing(c.now, r);
  }

  lemma {:induction false} StartsNext(c: Tracked, e: Event)
    requires Ok(c) && StartsOk(c) && ProfileIsChosen(c) && Enabled(c, e) && Timely(c, e)
    ensures StartsOk(Next(c, e))
  {
    var d := Next(c, e);
    if e.Initiates? { return; }
    if c.now.session.step >= SETUP_LINK { ChoiceStays(c, e); }
    forall k | 0 <= k < |d.outstanding|
      ensures StartOk(d, d.outstanding[k]) && d.outstanding[k].initiation <= d.initiations
    {
      if d.outstanding[k] in c.outstanding {
        var j :| 0 <= j < |c.outstanding| && c.outstanding[j] == d.outstanding[k];
        assert StartOk(c, c.outstanding[j]);
      } else {
        NewStart(c, e, d.outstanding[k]);
      }
    }
  }

  /**
   In every timely run in which answers are put down to the right profiles, each
   start request outstanding for this initiation names the profile last created
   or last reported.
   */
  lemma {:induction false} TimelyStartsChosen(es: seq<Event>)
    requires AllTimely(es) && EachEvent(es, Attributed)
    ensures After(es).Some? && StartsOk(After(es).value) && ProfileIsChosen(After(es).value)
  {
    TimelyRunsOk(es);
    if es != [] {
      var front, e := es[..|es| - 1], es[|es| - 1];
      TimelyStartsChosen(front);
      TimelyRunsOk(front);
      var c := After(front).value;
      ChosenNext(c, e);
      StartsNext(c, e);
    }
  }

  const LIST_ASKED := Sent(GetProfileList, GET_PROFILES, 1)
  const FOURTH_ASKED := Sent(GetProfileSettings(4), GET_PROFILES, 1)
  const SEVENTH_ASKED := Sent(GetProfileSettings(7), GET_PROFILES, 1)

  lemma {:induction false} ToTwoLists(p: States) returns (c: Tracked, s: Session)
    requires Closed(p)
    ensures Stands(p, c, s, [LIST_ASKED, LIST_ASKED]) && Has(s, GET_PROFILES, 0, 0, NO_HANDLE) && c.chosen == 0
  {
    c, s := Begins(p);
    c := Asks(p, c, s, []);
    assert [] + [LIST_ASKED] == [LIST_ASKED];
    c := Asks(p, c, s, [LIST_ASKED]);
    assert [LIST_ASKED] + [LIST_ASKED] == [LIST_ASKED, LIST_ASKED];
  }

  /** A list of one profile is answered: that profile is asked about. */
  lemma {:induction false} ListAnswered(p: States, c: Tracked, s: Session, other: Sent, profile: Byte)
    returns (d: Tracked)
    requires Closed(p) && Stands(p, c, s, [LIST_ASKED, other]) && s.step == GET_PROFILES
    ensures Stands(p, d, s.(scan := Some(Scan([profile], 0))),
                   [other, Sent(GetProfileSettings(profile), GET_PROFILES, 1)])
    ensures d.chosen == c.chosen
  {
    d := Next(c, Replies(0, ProfileList(Some([profile]))));
  }

  lemma {:induction false} ToTwoScans(p: States) returns (c: Tracked, s: Session)
    requires Closed(p)
    ensures Stands(p, c, s, [FOURTH_ASKED, SEVENTH_ASKED])
    ensures s.scan == Some(Scan([7], 0)) && s.profileId == 0 && c.chosen == 0
  {
    c, s := ToTwoLists(p);
    c := ListAnswered(p, c, s, LIST_ASKED, 4);
    s := s.(scan := Some(Scan([4], 0)));
    c := ListAnswered(p, c, s, FOURTH_ASKED, 7);
    s := s.(scan := Some(Scan([7], 0)));
  }

  lemma {:induction false} FourthReported(p: States, c: Tracked, s: Session) returns (d: Tracked)
    requires Closed(p) && Stands(p, c, s, [FOURTH_ASKED, SEVENTH_ASKED]) && s.scan == Some(Scan([7], 0))
    ensures p(d) && d.chosen == 4 && d.now.session.profileId == 7
  {
    d := Next(c, Replies(0, ProfileSettings(Some(0x02))));
  }

  /** A second list comes while profile 4 is asked about: profile 7 is taken, though 4 was reported. */
  lemma {:induction false} WrongProfileTaken() returns (c: Tracked)
    ensures Reached(c) && c.chosen == 4 && c.now.session.profileId == 7
  {
    var p: States := c => Reached(c);
    ReachedClosed(p);
    var s;
    c, s := ToTwoScans(p);
    c := FourthReported(p, c, s);
  }

  lemma {:induction false} ToScanning(p: States) returns (c: Tracked)
    requires Closed(p)
    ensures p(c) && c.outstanding == [FOURTH_ASKED] && c.initiations == 1
    ensures c.now.session.scan == Some(Scan([4], 0)) && |c.now.session.ip| == Inet.IP_BUFFER_SIZE
  {
    var s;
    c, s := Begins(p);
    c := Asks(p, c, s, []);
    assert [] + [LIST_ASKED] == [LIST_ASKED];
    c := Next(c, Replies(0, ProfileList(Some([4]))));
  }

  /** An initiation leaves the scan under way, so the new session takes the profile the old one asked about. */
  lemma {:induction false} OldAnswerTaken() returns (c: Tracked)
    ensures Reached(c) && c.initiations == 2 && c.outstanding == []
    ensures c.now.session.profileId == 4 && c.now.session.step == 2
  {
    var p: States := c => Reached(c);
    ReachedClosed(p);
    c := ToScanning(p);
    c := AnsweredAnew(p, c);
  }

  lemma {:induction false} AnsweredAnew(p: States, c: Tracked) returns (d: Tracked)
    requires Closed(p) && p(c) && c.outstanding == [FOURTH_ASKED] && c.initiations == 1
    requires c.now.session.scan == Some(Scan([4], 0)) && |c.now.session.ip| == Inet.IP_BUFFER_SIZE
    ensures p(d) && d.initiations == 2 && d.outstanding == []
    ensures d.now.session.profileId == 4 && d.now.session.step == 2
  {
    d := Next(c, Initiates(0));
    d := Next(d, Replies(0, ProfileSettings(Some(0x02))));
  }

  /** With a profile at hand no tick creates another or stays at step 1; it asks for a modification and goes on. */
  lemma {:induction false} ModifyMovesOn(s: Session)
    requires s.profileId != 0
    ensures Tick(s).1 != Send(CreateProfile) && Tick(s).0.step != 1
    ensures Tick(s).1 == Send(ModifyProfile) <==> s.step == 1
    ensures s.step == 1 ==> Tick(s).0 == s.(step := 2)
  {
  }

  /** A profile is created, and then a second list, asked for earlier and empty, leads back to step 1. */
  lemma {:induction false} ToModify(p: States) returns (c: Tracked)
    requires Closed(p)
    ensures p(c) && c.now.session.step == 1 && c.now.session.profileId == 4 && c.now.timers == 1
  {
    var s;
    c, s := ToTwoLists(p);
    c := Answered(p, c, s, [LIST_ASKED, LIST_ASKED], ProfileList(Some([])));
    s := s.(step := ADD_MODIFY_PROFILE);
    assert [LIST_ASKED, LIST_ASKED][1..] == [LIST_ASKED];
    c := Asks(p, c, s, [LIST_ASKED]);
    var sent := [LIST_ASKED] + [Sent(CreateProfile, ADD_MODIFY_PROFILE, 1)];
    c := CreatedLate(p, c, s, sent);
  }

  lemma {:induction false} CreatedLate(p: States, c: Tracked, s: Session, sent: seq<Sent>) returns (d: Tracked)
    requires Closed(p) && Stands(p, c, s, sent) && s.step == ADD_MODIFY_PROFILE
    requires sent == [LIST_ASKED, Sent(CreateProfile, ADD_MODIFY_PROFILE, 1)]
    ensures p(d) && d.now.session.step == 1 && d.now.session.profileId == 4 && d.now.timers == 1
  {
    d := Next(c, Replies(1, ProfileCreated(Some(4))));
    assert Without(sent, 1) == [LIST_ASKED];
    d := Next(d, Replies(0, ProfileList(Some([]))));
  }

  /** Such a session is reached, and its next tick asks for the modification. */
  lemma {:induction false} ModifyReached() returns (c: Tracked)
    ensures Reached(c) && Enabled(c, Ticks)
    ensures Tick(c.now.session) == (c.now.session.(step := 2), Send(ModifyProfile))
  {
    var p: States := c => Reached(c);
    ReachedClosed(p);
    c := ToModify(p);
  }

  // ---- binds accepted twice ---------------------------------------------------------------------

  const BIND_ASKED := Sent(BindPort(1), BIND_DATA_PORT, 1)

  /** Ticks at step 7 have asked for the bind, and none of the requests is answered yet. */
  lemma {:induction false} ToAskedBind(p: States, more: seq<Sent>) returns (c: Tracked, s: Session)
    requires Closed(p) && more in [[BIND_ASKED], [BIND_ASKED, BIND_ASKED]]
    ensures Stands(p, c, s, more) && Has(s, BIND_DATA_PORT, 1, 1, NO_HANDLE) && c.now.lastStart.None?
  {
    c, s := ToBind(p);
    c := Asks(p, c, s, []);
    assert [] + [BIND_ASKED] == [BIND_ASKED];
    if |more| == 2 {
      c := Asks(p, c, s, [BIND_ASKED]);
      assert [BIND_ASKED] + [BIND_ASKED] == more;
    }
  }

  /** One more has been asked for, and the first is accepted before the next tick. */
  lemma {:induction false} ToSecondBind(p: States, more: seq<Sent>) returns (c: Tracked, s: Session)
    requires Closed(p) && more in [[BIND_ASKED], [BIND_ASKED, BIND_ASKED]]
    ensures Stands(p, c, s, more) && Has(s, DO_START_NETWORK, 1, 1, NO_HANDLE) && c.now.lastStart.None?
  {
    c, s := ToAskedBind(p, more);
    c := Asks(p, c, s, more);
    var sent := more + [BIND_ASKED];
    c := Answered(p, c, s, sent, Bound(true));
    assert sent[1..] == more;
    s := s.(step := SELECT_IP_FAMILY);
    c := Waits(p, c, s, more);
    s := s.(step := DO_START_NETWORK);
  }

  lemma {:induction false} ToUnaskedWait(p: States) returns (c: Tracked, s: Session)
    requires Closed(p)
    ensures Stands(p, c, s, []) && s.step == WAIT_NET_START && c.now.lastStart.None?
  {
    c, s := ToSecondBind(p, [BIND_ASKED]);
    c := Answered(p, c, s, [BIND_ASKED], Bound(true));
    s := s.(step := WAIT_NET_START);
  }

  lemma {:induction false} ToUnstartedEnd(p: States) returns (c: Tracked, s: Session)
    requires Closed(p)
    ensures Stands(p, c, s, []) && s.step == FINISHED && c.now.lastStart.None?
  {
    c, s := ToSecondBind(p, [BIND_ASKED, BIND_ASKED]);
    c := Answered(p, c, s, [BIND_ASKED, BIND_ASKED], Bound(true));
    assert [BIND_ASKED, BIND_ASKED][1..] == [BIND_ASKED];
    s := s.(step := WAIT_NET_START);
    c := Answered(p, c, s, [BIND_ASKED], Bound(true));
    s := s.(step := REGISTER_INDICATIONS);
    c := Waits(p, c, s, []);
    s := s.(step := GET_SETTINGS);
    c := AsksOnce(p, c, s, SETTLED);
    s := OnReply(s, SETTLED).0;
    c := Waits(p, c, s, []);
    s := s.(step := FINISHED);
  }

  /**
   Two binds accepted: the session waits at step 10 for the answer to a start
   request that was never sent, and ticks do nothing.
   */
  lemma {:induction false} TwoBindsWait() returns (c: Tracked)
    ensures Reached(c)
    ensures c.now.session.step == 10 && c.now.lastStart.None? && c.outstanding == [] && c.now.timers == 1 &&
            c.initiations == 1 && Tick(c.now.session) == (c.now.session, Wait)
  {
    var p: States := c => Reached(c);
    ReachedClosed(p);
    var s;
    c, s := ToUnaskedWait(p);
  }

  /** Three binds accepted and one settings reply: the next tick notifies, and no start request was ever sent. */
  lemma {:induction false} ThreeBindsNotify() returns (c: Tracked)
    ensures Reached(c)
    ensures c.now.session.step == 99 && c.now.lastStart.None? && c.outstanding == [] && c.now.timers == 1 &&
            c.initiations == 1 && Tick(c.now.session) == (c.now.session, NotifyDcm)
  {
    var p: States := c => Reached(c);
    ReachedClosed(p);
    var s;
    c, s := ToUnstartedEnd(p);
  }
}
