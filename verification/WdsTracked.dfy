/**
 Runs of one bring-up with every request tracked: ticks and initiations come at
 any time, so requests pile up, and replies answer outstanding requests in any
 order. Such runs can leave the steps altogether. They cannot as long as, from
 SETUP_LINK on, no reply takes effect at another step than its request was sent
 at; every serialised run is of that kind.
 */
module WdsTracked {
  import opened Bytes
  import opened Options
  import Inet
  import opened Wds
  import WdsSerial

  /** A request, the step it left the session at, and the initiation it was sent for. */
  datatype Sent = Sent(request: Request, step: Byte, initiation: nat)

  /**
   `now` keeps the session, the live timers and what happened, without a pending
   request; `boundMux` is the multiplexer id of the last bind request accepted,
   `chosen` the profile last created or last reported with exactly the IMS mask
   since the initiation, 0 for none.
   */
  datatype Tracked = Tracked(
    now: WdsSerial.Serial,
    initiations: nat,
    outstanding: seq<Sent>,
    boundMux: Option<DWord>,
    chosen: Byte)

  const BEGIN := Tracked(WdsSerial.BEGIN, 0, [], None, 0)

  /** A reply names the outstanding request it answers. */
  datatype Event = Initiates(slot: DWord) | Ticks | Replies(k: nat, reply: Reply)

  predicate Enabled(c: Tracked, e: Event) {
    match e
    case Initiates(_) => true
    case Ticks => c.now.timers > 0
    case Replies(k, r) =>
      k < |c.outstanding| && WdsSerial.Answers(c.outstanding[k].request, r) && Expected(c.now.session, r)
  }

  /** The request a step has sent joins the outstanding ones. */
  function Joined(c: Tracked, d: WdsSerial.Serial, rest: seq<Sent>): Tracked {
    c.(now := d.(pending := None),
       outstanding := rest + match d.pending
                             case Some(q) => [Sent(q, d.session.step, c.initiations)]
                             case None => [])
  }

  /** The profile an answer names as the one to use. */
  function ChosenBy(q: Request, r: Reply, chosen: Byte): Byte {
    match r
    case ProfileCreated(Some(p)) => p
    case ProfileSettings(Some(mask)) => if q.GetProfileSettings? && mask == 0x02 then q.profile else chosen
    case _ => chosen
  }

  function Without(sent: seq<Sent>, k: nat): seq<Sent>
    requires k < |sent|
  {
    sent[..k] + sent[k + 1..]
  }

  function Next(c: Tracked, e: Event): Tracked
    requires Enabled(c, e)
  {
    match e
    case Initiates(slot) =>
      c.(now := WdsSerial.AfterInitiate(c.now, slot), initiations := c.initiations + 1, chosen := 0)
    case Ticks =>
      Joined(c, WdsSerial.AfterTick(c.now.(pending := None)), c.outstanding)
    case Replies(k, r) =>
      var q := c.outstanding[k].request;
      Joined(c.(boundMux := if q.BindPort? && r == Bound(true) then Some(q.muxId) else c.boundMux,
                chosen := ChosenBy(q, r, c.chosen)),
             WdsSerial.AfterReply(c.now, r), Without(c.outstanding, k))
  }

  function After(es: seq<Event>): Option<Tracked> {
    if es == [] then Some(BEGIN)
    else
      match After(es[..|es| - 1])
      case None => None
      case Some(c) => if Enabled(c, es[|es| - 1]) then Some(Next(c, es[|es| - 1])) else None
  }

  // ---- the condition -----------------------------------------------------------------------

  /** From SETUP_LINK on, a reply that has any effect comes at the step its request was sent at. */
  predicate Timely(c: Tracked, e: Event)
    requires Enabled(c, e)
  {
    e.Replies? ==>
      var s, sent := c.now.session, c.outstanding[e.k];
      || OnReply(s, e.reply) == (s, None)
      || s.step == sent.step
      || (s.step < SETUP_LINK && sent.step < SETUP_LINK)
  }

  /** The reply answers a request of the current initiation. */
  predicate Current(c: Tracked, e: Event)
    requires Enabled(c, e)
  {
    e.Replies? ==> c.outstanding[e.k].initiation == c.initiations
  }

  predicate AllTimely(es: seq<Event>) {
    es == [] || (AllTimely(es[..|es| - 1]) &&
                 match After(es[..|es| - 1])
                 case None => false
                 case Some(c) => Enabled(c, es[|es| - 1]) && Timely(c, es[|es| - 1]))
  }

  predicate AllCurrent(es: seq<Event>) {
    es == [] || (AllCurrent(es[..|es| - 1]) &&
                 match After(es[..|es| - 1])
                 case None => false
                 case Some(c) => Enabled(c, es[|es| - 1]) && Current(c, es[|es| - 1]))
  }

  // ---- safety ------------------------------------------------------------------------------

  /** A request says by its kind at which step it was sent. */
  predicate StampOk(t: Sent) {
    match t.request
    case AddLink => t.step == SETUP_LINK
    case BindPort(_) => t.step == BIND_DATA_PORT
    case StartNetwork(_) => t.step == WAIT_NET_START
    case GetCurrentSettings => t.step == GET_SETTINGS
    case _ => t.step < SETUP_LINK
  }

  predicate StampsOk(sent: seq<Sent>) {
    forall k :: 0 <= k < |sent| ==> StampOk(sent[k])
  }

  predicate SessionOk(c: WdsSerial.Serial) {
    var s := c.session;
    && (s.step <= BIND_DATA_PORT_IPV6 || s.step == FINISHED)
    && (c.linkMux.Some? <==> s.step >= LINK_BRINGUP)
    && (c.linkMux.Some? ==> s.muxId == c.linkMux.value)
    && (s.step >= SELECT_IP_FAMILY ==> c.bound)
    && (s.step >= REGISTER_INDICATIONS <==> WdsSerial.NetworkUp(c) || WdsSerial.StartFailed(c))
    && (s.step > 0 ==> c.timers + c.notices > 0)
    && (c.timers + c.notices > 0 ==> s.handle == WdsSerial.HandleGiven(c.lastStart))
    && WdsSerial.AddressOk(c)
  }

  /** No timer gives up. */
  predicate Counted(c: Tracked) {
    c.initiations == c.now.timers + c.now.notices && (c.outstanding != [] ==> c.initiations > 0)
  }

  /** Ticks alone pass none of the points where a reply is waited for. */
  lemma {:induction false} TickPasses(s: Session)
    requires s.step <= BIND_DATA_PORT_IPV6 || s.step == FINISHED
    ensures var (t, action) := Tick(s);
            t.muxId == s.muxId && t.handle == s.handle && t.ip == s.ip && action != GiveUp &&
            (t.step <= BIND_DATA_PORT_IPV6 || t.step == FINISHED) && (t.step == 0 <==> s.step == 0) &&
            (t.step >= LINK_BRINGUP <==> s.step >= LINK_BRINGUP) &&
            (t.step >= SELECT_IP_FAMILY <==> s.step >= SELECT_IP_FAMILY) &&
            (t.step >= REGISTER_INDICATIONS <==> s.step >= REGISTER_INDICATIONS) &&
            (t.step >= BIND_DATA_PORT_IPV6 <==> s.step >= BIND_DATA_PORT_IPV6)
  {
  }

  lemma {:induction false} SessionTicks(c: WdsSerial.Serial)
    requires SessionOk(c) && c.timers > 0
    ensures var d := WdsSerial.AfterTick(c);
            SessionOk(d) && d.timers + d.notices == c.timers + c.notices
  {
    TickPasses(c.session);
    var d := WdsSerial.AfterTick(c);
    assert d.session == Tick(c.session).0;
    assert d.linkMux == c.linkMux && d.bound == c.bound && d.lastStart == c.lastStart && d.stored == c.stored &&
           d.ipBefore == c.ipBefore;
  }

  /** A reply about profiles can only lead to another early step. */
  lemma {:induction false} ProfileReplies(c: WdsSerial.Serial, r: Reply)
    requires SessionOk(c) && Expected(c.session, r) && c.timers + c.notices > 0 && c.session.step < SETUP_LINK
    requires r.ProfileList? || r.ProfileSettings? || r.ProfileCreated? || r.ProfileModified?
    ensures var d := WdsSerial.AfterReply(c, r);
            SessionOk(d) && d.timers + d.notices == c.timers + c.notices
  {
  }

  lemma {:induction false} SessionReplies(c: WdsSerial.Serial, r: Reply, t: Sent)
    requires SessionOk(c) && StampOk(t) && WdsSerial.Answers(t.request, r) && Expected(c.session, r)
    requires c.timers + c.notices > 0
    requires c.session.step == t.step || (c.session.step < SETUP_LINK && t.step < SETUP_LINK)
    ensures var d := WdsSerial.AfterReply(c, r);
            SessionOk(d) && d.timers + d.notices == c.timers + c.notices
  {
    match r
    case ProfileList(_) => ProfileReplies(c, r);
    case ProfileSettings(_) => ProfileReplies(c, r);
    case ProfileCreated(_) => ProfileReplies(c, r);
    case ProfileModified => ProfileReplies(c, r);
    case _ =>
  }

  /** The replies that do not move a session at all. */
  lemma {:induction false} StaysWhen(s: Session, r: Reply)
    requires Expected(s, r) && OnReply(s, r) == (s, None)
    ensures match r
            case LinkAdded(mux) => mux.None?
            case Bound(ok) => !ok
            case NetworkStarted(result) => result.CallFailed? && s.step == SET_IP_BEARER
            case CurrentSettings(netmask, address) => netmask.None? || address.None?
            case _ => true
  {
    assert Inc(s.step) != s.step && Dec(s.step) != s.step;
  }

  /** A reply that does not move the session changes nothing that matters. */
  lemma {:induction false} SessionStays(c: WdsSerial.Serial, r: Reply)
    requires SessionOk(c) && Expected(c.session, r) && OnReply(c.session, r) == (c.session, None)
    ensures var d := WdsSerial.AfterReply(c, r);
            SessionOk(d) && d.timers + d.notices == c.timers + c.notices
  {
    StaysWhen(c.session, r);
  }

  lemma {:induction false} TickStamps(c: WdsSerial.Serial, n: nat)
    requires c.timers > 0 && c.pending.None?
    ensures var d := WdsSerial.AfterTick(c);
            d.pending.Some? ==> StampOk(Sent(d.pending.value, d.session.step, n))
  {
  }

  lemma {:induction false} ReplyStamps(c: WdsSerial.Serial, r: Reply, t: Sent, n: nat)
    requires StampOk(t) && WdsSerial.Answers(t.request, r) && Expected(c.session, r)
    requires OnReply(c.session, r).1 == None || c.session.step == t.step ||
             (c.session.step < SETUP_LINK && t.step < SETUP_LINK)
    ensures var d := WdsSerial.AfterReply(c, r);
            d.pending.Some? ==> StampOk(Sent(d.pending.value, d.session.step, n))
  {
  }

  predicate Ok(c: Tracked) {
    SessionOk(c.now) && Counted(c) && StampsOk(c.outstanding) && c.now.pending.None?
  }

  lemma {:induction false} OkInitiate(c: Tracked, slot: DWord)
    requires Ok(c)
    ensures Ok(Next(c, Initiates(slot)))
  {
  }

  lemma {:induction false} OkTick(c: Tracked)
    requires Ok(c) && Enabled(c, Ticks)
    ensures Ok(Next(c, Ticks))
  {
    SessionTicks(c.now);
    TickStamps(c.now, c.initiations);
  }

  lemma {:induction false} OkReply(c: Tracked, k: nat, r: Reply)
    requires Ok(c) && Enabled(c, Replies(k, r)) && Timely(c, Replies(k, r))
    ensures Ok(Next(c, Replies(k, r)))
  {
    var t := c.outstanding[k];
    if OnReply(c.now.session, r) == (c.now.session, None) {
      SessionStays(c.now, r);
    } else {
      SessionReplies(c.now, r, t);
    }
    ReplyStamps(c.now, r, t, c.initiations);
  }

  lemma {:induction false} OkNext(c: Tracked, e: Event)
    requires Ok(c) && Enabled(c, e) && Timely(c, e)
    ensures Ok(Next(c, e))
  {
    match e
    case Initiates(slot) => OkInitiate(c, slot);
    case Ticks => OkTick(c);
    case Replies(k, r) => OkReply(c, k, r);
  }

  lemma {:induction false} TimelyRunsOk(es: seq<Event>)
    requires AllTimely(es)
    ensures After(es).Some? && Ok(After(es).value)
  {
    if es != [] {
      var front, e := es[..|es| - 1], es[|es| - 1];
      TimelyRunsOk(front);
      OkNext(After(front).value, e);
    }
  }

  /**
   Whatever piles up and in whatever order it is answered, in a timely run: no
   timer ever gives up and the step stays in 0..13 or 99; from 5 on a link has
   been accepted for this session and its multiplexer id is the session's; from
   8 on a bind has been accepted since the last CALL_FAILED; from 11 on the
   packet handle is that of the last start reply, and the network is up unless
   that was an error; and at 99 the address is that of a settings reply since
   then.
   */
  lemma {:induction false} TimelyRunsSafe(es: seq<Event>)
    requires AllTimely(es)
    ensures After(es).Some?
    ensures var c := After(es).value;
            var s, now := c.now.session, c.now;
            (s.step <= 13 || s.step == 99) && c.initiations == now.timers + now.notices &&
            (s.step >= 5 ==> now.linkMux == Some(s.muxId)) &&
            (s.step >= 8 ==> now.bound) &&
            (s.step >= 11 ==> s.handle == WdsSerial.HandleGiven(now.lastStart)) &&
            (s.step >= 11 ==> (WdsSerial.NetworkUp(now) <==> now.lastStart != Some(OtherError))) &&
            (s.step == 99 ==> now.stored.Some? && |now.ipBefore| == Inet.IP_BUFFER_SIZE &&
                              s.ip == StoreAddress(now.ipBefore, now.stored.value))
  {
    TimelyRunsOk(es);
  }

  // ---- replies of the current initiation -----------------------------------------------------

  /** A bind request of this initiation names the multiplexer id of its link. */
  predicate BindOk(c: Tracked, t: Sent) {
    t.request.BindPort? && t.initiation == c.initiations ==> c.now.linkMux == Some(t.request.muxId)
  }

  predicate BindsOk(c: Tracked) {
    && (forall k :: 0 <= k < |c.outstanding| ==>
          BindOk(c, c.outstanding[k]) && c.outstanding[k].initiation <= c.initiations)
    && (c.now.bound ==> c.now.linkMux.Some? && c.boundMux == c.now.linkMux)
  }

  /** A reply keeps the link of the session, or brings the first one. */
  lemma {:induction false} LinkKept(c: Tracked, e: Event)
    requires Ok(c) && Enabled(c, e) && !e.Initiates? && Timely(c, e)
    ensures Next(c, e).now.linkMux == c.now.linkMux || c.now.linkMux.None?
    ensures Next(c, e).now.bound ==> c.now.bound || (e.Replies? && e.reply == Bound(true))
  {
  }

  lemma {:induction false} BoundWhere(c: Tracked, e: Event)
    requires Ok(c) && Enabled(c, e) && Timely(c, e) && e.Replies? && e.reply == Bound(true)
    ensures c.outstanding[e.k].request.BindPort? && c.now.session.step == BIND_DATA_PORT
    ensures Next(c, e).now.linkMux == c.now.linkMux && c.now.linkMux.Some?
  {
  }

  /** A request that is outstanding now and was not before is the one just sent. */
  lemma {:induction false} JustSent(c: Tracked, d: WdsSerial.Serial, rest: seq<Sent>, t: Sent)
    requires t in Joined(c, d, rest).outstanding && t !in rest
    ensures d.pending.Some? && t == Sent(d.pending.value, d.session.step, c.initiations)
  {
  }

  lemma {:induction false} TickBinds(s: WdsSerial.Serial)
    requires s.timers > 0 && s.pending.None?
    ensures var d := WdsSerial.AfterTick(s);
            d.pending.Some? && d.pending.value.BindPort? ==>
              s.session.step == BIND_DATA_PORT && d.pending.value.muxId == s.session.muxId
  {
  }

  lemma {:induction false} ReplyBindsNothing(s: WdsSerial.Serial, r: Reply)
    requires Expected(s.session, r)
    ensures var d := WdsSerial.AfterReply(s, r);
            d.pending.Some? ==> d.pending.value.GetProfileSettings?
  {
  }

  lemma {:induction false} WithoutIn(sent: seq<Sent>, k: nat, t: Sent)
    requires k < |sent| && t in Without(sent, k)
    ensures t in sent
  {
  }

  /** What an event other than an initiation adds to the outstanding requests. */
  lemma {:induction false} NewRequest(c: Tracked, e: Event, t: Sent)
    requires Ok(c) && Enabled(c, e) && !e.Initiates?
    requires t in Next(c, e).outstanding && t !in c.outstanding
    ensures t.initiation == c.initiations
    ensures t.request.BindPort? ==> c.now.session.step == BIND_DATA_PORT && t.request.muxId == c.now.session.muxId
    ensures t.request.BindPort? ==> e.Ticks?
  {
    match e
    case Ticks =>
      var s := c.now.(pending := None);
      JustSent(c, WdsSerial.AfterTick(s), c.outstanding, t);
      TickBinds(s);
    case Replies(k, r) =>
      if t in Without(c.outstanding, k) { WithoutIn(c.outstanding, k, t); }
      var b := c.(boundMux := Next(c, e).boundMux, chosen := Next(c, e).chosen);
      JustSent(b, WdsSerial.AfterReply(c.now, r), Without(c.outstanding, k), t);
      ReplyBindsNothing(c.now, r);
  }

  lemma {:induction false} BindsNext(c: Tracked, e: Event)
    requires Ok(c) && BindsOk(c) && Enabled(c, e) && Timely(c, e) && Current(c, e)
    ensures BindsOk(Next(c, e))
  {
    var d := Next(c, e);
    if e.Initiates? { return; }
    LinkKept(c, e);
    if e.Replies? && e.reply == Bound(true) { BoundWhere(c, e); }
    forall k | 0 <= k < |d.outstanding|
      ensures BindOk(d, d.outstanding[k]) && d.outstanding[k].initiation <= d.initiations
    {
      if d.outstanding[k] in c.outstanding {
        var j :| 0 <= j < |c.outstanding| && c.outstanding[j] == d.outstanding[k];
        assert BindOk(c, c.outstanding[j]);
      } else {
        NewRequest(c, e, d.outstanding[k]);
      }
    }
  }

  /**
   If moreover every reply answers a request of the current initiation, the port
   is bound under the multiplexer id of the link of this very session.
   */
  lemma {:induction false} CurrentRunsBindOwn(es: seq<Event>)
    requires AllTimely(es) && AllCurrent(es)
    ensures After(es).Some? && BindsOk(After(es).value)
    ensures var c := After(es).value;
            c.now.session.step >= 8 ==> c.boundMux == Some(c.now.session.muxId)
  {
    TimelyRunsOk(es);
    if es != [] {
      var front, e := es[..|es| - 1], es[|es| - 1];
      CurrentRunsBindOwn(front);
      TimelyRunsOk(front);
      BindsNext(After(front).value, e);
    }
  }

  // ---- serialised runs are timely ------------------------------------------------------------

  function Tracking(e: WdsSerial.Event): Event {
    match e
    case Initiates(slot) => Initiates(slot)
    case Ticks => Ticks
    case Replies(r) => Replies(0, r)
  }

  function TrackingAll(es: seq<WdsSerial.Event>): (r: seq<Event>)
    ensures |r| == |es|
  {
    if es == [] then [] else TrackingAll(es[..|es| - 1]) + [Tracking(es[|es| - 1])]
  }

  /** The tracked state is the serialised one, its pending request the only one outstanding. */
  predicate Matches(c: Tracked, d: WdsSerial.Serial) {
    && c.now == d.(pending := None)
    && match d.pending
       case None => c.outstanding == []
       case Some(q) =>
         && |c.outstanding| == 1
         && var t := c.outstanding[0];
            t.request == q && t.initiation == c.initiations &&
            (t.step == d.session.step || (t.step < SETUP_LINK && d.session.step < SETUP_LINK))
  }

  lemma {:induction false} MatchesNext(c: Tracked, d: WdsSerial.Serial, e: WdsSerial.Event)
    requires Matches(c, d) && WdsSerial.Inv(d) && WdsSerial.Enabled(d, e)
    ensures Enabled(c, Tracking(e)) && Timely(c, Tracking(e)) && Current(c, Tracking(e))
    ensures Matches(Next(c, Tracking(e)), WdsSerial.Next(d, e))
  {
  }

  /** The condition is weaker than serialisation. */
  lemma {:induction false} SerialisedIsTimely(es: seq<WdsSerial.Event>)
    requires WdsSerial.After(es).Some?
    ensures AllTimely(TrackingAll(es)) && AllCurrent(TrackingAll(es))
    ensures After(TrackingAll(es)).Some? && Matches(After(TrackingAll(es)).value, WdsSerial.After(es).value)
  {
    if es != [] {
      var front := es[..|es| - 1];
      SerialisedIsTimely(front);
      WdsSerial.RunsKeepInv(front);
      assert TrackingAll(es)[..|es| - 1] == TrackingAll(front);
      MatchesNext(After(TrackingAll(front)).value, WdsSerial.After(front).value, es[|es| - 1]);
    }
  }

  // ---- untimely runs -------------------------------------------------------------------------

  ghost predicate Reached(c: Tracked) {
    exists es :: After(es) == Some(c)
  }

  /** A set of states that runs do not leave. */
  type States = Tracked -> bool

  ghost predicate Closed(p: States) {
    p(BEGIN) && forall c, e :: p(c) && Enabled(c, e) ==> p(Next(c, e))
  }

  lemma {:induction false} ReachedClosed(p: States)
    requires forall c :: p(c) <==> Reached(c)
    ensures Closed(p)
  {
    assert After([]) == Some(BEGIN);
    forall c, e | p(c) && Enabled(c, e) ensures p(Next(c, e)) {
      var es :| After(es) == Some(c);
      assert (es + [e])[..|es|] == es;
      assert After(es + [e]) == Some(Next(c, e));
    }
  }

  /** One initiation has come to this session, with `sent` outstanding and no notification yet. */
  predicate Stands(p: States, c: Tracked, s: Session, sent: seq<Sent>) {
    && p(c) && |s.ip| == Inet.IP_BUFFER_SIZE
    && c.now.session == s && c.now.pending.None? && c.outstanding == sent
    && c.now.timers == 1 && c.now.notices == 0 && c.initiations == 1
  }

  /** A session at this step, with this profile, link and packet handle. */
  predicate Has(s: Session, step: Byte, profileId: Byte, muxId: DWord, handle: DWord) {
    && s.step == step && s.profileId == profileId && s.muxId == muxId && s.handle == handle
    && |s.ip| == Inet.IP_BUFFER_SIZE && s.scan.None? && (s.setupLinkDone <==> step > SETUP_LINK)
  }

  lemma {:induction false} Begins(p: States) returns (c: Tracked, s: Session)
    requires Closed(p)
    ensures Stands(p, c, s, []) && Has(s, 0, 0, 0, NO_HANDLE) && c.now.lastStart.None? && c.chosen == 0
  {
    s := Initiate(FRESH, 0);
    c := Next(BEGIN, Initiates(0));
  }

  lemma {:induction false} Waits(p: States, c: Tracked, s: Session, sent: seq<Sent>) returns (d: Tracked)
    requires Closed(p) && Stands(p, c, s, sent) && Tick(s).1 == Wait
    ensures Stands(p, d, Tick(s).0, sent) && d.now.lastStart == c.now.lastStart
  {
    d := Next(c, Ticks);
  }

  lemma {:induction false} Asks(p: States, c: Tracked, s: Session, sent: seq<Sent>) returns (d: Tracked)
    requires Closed(p) && Stands(p, c, s, sent) && Tick(s).1.Send?
    ensures Stands(p, d, Tick(s).0, sent + [Sent(Tick(s).1.request, Tick(s).0.step, 1)])
    ensures d.now.lastStart == c.now.lastStart && d.chosen == c.chosen
  {
    d := Next(c, Ticks);
  }

  lemma {:induction false} Answered(p: States, c: Tracked, s: Session, sent: seq<Sent>, reply: Reply)
    returns (d: Tracked)
    requires Closed(p) && Stands(p, c, s, sent) && sent != [] && WdsSerial.Answers(sent[0].request, reply)
    requires !reply.ProfileSettings? && OnReply(s, reply).1.None?
    ensures Stands(p, d, OnReply(s, reply).0, sent[1..])
    ensures !reply.NetworkStarted? ==> d.now.lastStart == c.now.lastStart
  {
    d := Next(c, Replies(0, reply));
    assert Without(c.outstanding, 0) == sent[1..];
  }

  /** A tick that asks, and the answer. */
  lemma {:induction false} AsksOnce(p: States, c: Tracked, s: Session, reply: Reply) returns (d: Tracked)
    requires Closed(p) && Stands(p, c, s, []) && Tick(s).1.Send? && WdsSerial.Answers(Tick(s).1.request, reply)
    requires !reply.ProfileSettings? && OnReply(Tick(s).0, reply).1.None?
    ensures Stands(p, d, OnReply(Tick(s).0, reply).0, [])
    ensures !reply.NetworkStarted? ==> d.now.lastStart == c.now.lastStart
  {
    d := Asks(p, c, s, []);
    var sent := [] + [Sent(Tick(s).1.request, Tick(s).0.step, 1)];
    d := Answered(p, d, Tick(s).0, sent, reply);
    assert sent[1..] == [];
  }

  const ASKED := Sent(GetCurrentSettings, GET_SETTINGS, 1)
  const SETTLED := CurrentSettings(Some(0), Some(0))

  lemma {:induction false} ToLink(p: States) returns (c: Tracked, s: Session)
    requires Closed(p)
    ensures Stands(p, c, s, []) && Has(s, SETUP_LINK, 1, 0, NO_HANDLE) && c.now.lastStart.None?
  {
    c, s := Begins(p);
    c := AsksOnce(p, c, s, ProfileList(Some([])));
    s := s.(step := ADD_MODIFY_PROFILE);
    c := AsksOnce(p, c, s, ProfileCreated(Some(1)));
    s := s.(step := PROFILE_READY, profileId := 1);
    c := Waits(p, c, s, []);
    s := s.(step := SETUP_DATA_FORMAT);
    c := Waits(p, c, s, []);
    s := s.(step := SETUP_LINK);
  }

  lemma {:induction false} ToBind(p: States) returns (c: Tracked, s: Session)
    requires Closed(p)
    ensures Stands(p, c, s, []) && Has(s, BIND_DATA_PORT, 1, 1, NO_HANDLE) && c.now.lastStart.None?
  {
    c, s := ToLink(p);
    c := AsksOnce(p, c, s, LinkAdded(Some(1)));
    s := s.(step := LINK_BRINGUP, muxId := 1, setupLinkDone := true);
    c := Waits(p, c, s, []);
    s := s.(step := SET_IP_BEARER);
    c := Waits(p, c, s, []);
    s := s.(step := BIND_DATA_PORT);
  }

  lemma {:induction false} ToSettings(p: States) returns (c: Tracked, s: Session)
    requires Closed(p)
    ensures Stands(p, c, s, []) && Has(s, GET_SETTINGS, 1, 1, 1)
  {
    c, s := ToBind(p);
    c := AsksOnce(p, c, s, Bound(true));
    s := s.(step := SELECT_IP_FAMILY);
    c := Waits(p, c, s, []);
    s := s.(step := DO_START_NETWORK);
    c := AsksOnce(p, c, s, NetworkStarted(Started(Some(1))));
    s := s.(step := REGISTER_INDICATIONS, handle := 1);
    c := Waits(p, c, s, []);
    s := s.(step := GET_SETTINGS);
  }

  /** Two ticks at step 12: the settings have been asked for twice, and the first reply has come. */
  lemma {:induction false} ToSecondReply(p: States) returns (c: Tracked, s: Session)
    requires Closed(p)
    ensures Stands(p, c, s, [ASKED]) && Has(s, BIND_DATA_PORT_IPV6, 1, 1, 1)
  {
    c, s := ToSettings(p);
    c := Asks(p, c, s, []);
    assert [] + [ASKED] == [ASKED];
    c := Asks(p, c, s, [ASKED]);
    assert [ASKED] + [ASKED] == [ASKED, ASKED];
    c := Answered(p, c, s, [ASKED, ASKED], SETTLED);
    s := OnReply(s, SETTLED).0;
    assert [ASKED, ASKED][1..] == [ASKED];
  }

  lemma {:induction false} ToStuck(p: States) returns (c: Tracked, s: Session)
    requires Closed(p)
    ensures Stands(p, c, s, []) && s.step == 14
  {
    c, s := ToSecondReply(p);
    c := Answered(p, c, s, [ASKED], SETTLED);
    s := OnReply(s, SETTLED).0;
  }

  lemma {:induction false} ToPastEnd(p: States) returns (c: Tracked, s: Session)
    requires Closed(p)
    ensures Stands(p, c, s, []) && s.step == 100
  {
    c, s := ToSecondReply(p);
    c := Waits(p, c, s, [ASKED]);
    s := s.(step := FINISHED);
    c := Answered(p, c, s, [ASKED], SETTLED);
    s := OnReply(s, SETTLED).0;
  }

  /**
   The settings are asked for twice and both replies arrive at once: the session
   stands at step 14, where ticks do nothing.
   */
  lemma {:induction false} TwoRepliesStick() returns (c: Tracked)
    ensures Reached(c)
    ensures c.now.session.step == 14 && c.outstanding == [] && c.initiations == 1 && c.now.timers == 1 &&
            c.now.notices == 0 && Tick(c.now.session) == (c.now.session, Wait)
  {
    var p: States := c => Reached(c);
    ReachedClosed(p);
    var s;
    c, s := ToStuck(p);
  }

  /**
   A tick comes between the two: the second reply leads past FINISHED, where the
   timer gives up without a notification.
   */
  lemma {:induction false} LateReplyGivesUp() returns (c: Tracked)
    ensures Reached(c)
    ensures c.now.session.step == 100 && c.outstanding == [] && c.initiations == 1 && c.now.timers == 1 &&
            c.now.notices == 0 && Tick(c.now.session) == (c.now.session, GiveUp)
  {
    var p: States := c => Reached(c);
    ReachedClosed(p);
    var s;
    c, s := ToPastEnd(p);
  }
}
