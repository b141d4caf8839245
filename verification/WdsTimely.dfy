/**
 Progress with requests piling up: in a timely run that has come to SETUP_LINK,
 if ticks keep coming, every outstanding request is answered, finitely many
 replies fail and the link is not refused, the session notifies.
 */
module WdsTimely {
  import opened Bytes
  import opened Options
  import opened Wds
  import Inet
  import WdsSerial
  import opened WdsTracked

  type Schedule = nat -> Event

  /** The state after each number of events. */
  type Course = nat -> Tracked

  function Onward(c: Tracked, e: Event): Tracked {
    if Enabled(c, e) then Next(c, e) else c
  }

  /** One event of a schedule; an event that cannot happen leaves things as they are. */
  ghost predicate Goes(run: Course, es: Schedule, n: nat) {
    run(n + 1) == Onward(run(n), es(n))
  }

  /** A reply that fails is given to a request. */
  predicate FailsAt(c: Tracked, e: Event) {
    Enabled(c, e) && e.Replies? && WdsSerial.Fails(WdsSerial.Replies(e.reply))
  }

  /** The event answers this request. */
  predicate AnswersAt(c: Tracked, e: Event, t: Sent) {
    Enabled(c, e) && e.Replies? && c.outstanding[e.k] == t
  }

  /** The event is no initiation and comes in time. */
  predicate InTime(c: Tracked, e: Event) {
    !e.Initiates? && (Enabled(c, e) ==> Timely(c, e))
  }

  ghost predicate InTimeAt(run: Course, es: Schedule, n: nat) {
    InTime(run(n), es(n))
  }

  /** The link has not been refused, and from event `quiet` on nothing fails. */
  ghost predicate QuietAt(run: Course, es: Schedule, quiet: nat, n: nat) {
    !run(n).now.linkRefused && (quiet <= n ==> !FailsAt(run(n), es(n)))
  }

  ghost predicate TicksFrom(es: Schedule, n: nat) {
    exists m: nat :: n <= m && es(m).Ticks?
  }

  ghost predicate AnsweredFrom(run: Course, es: Schedule, n: nat, t: Sent) {
    exists m: nat :: n <= m && AnswersAt(run(m), es(m), t)
  }

  /**
   Without initiations, a timely course in which ticks keep coming, whatever is
   outstanding is answered some time, replies from event `quiet` on do not fail,
   and the link is not refused.
   */
  ghost predicate Proper(run: Course, es: Schedule, quiet: nat) {
    && (forall n: nat :: Goes(run, es, n))
    && (forall n: nat :: InTimeAt(run, es, n))
    && (forall n: nat :: TicksFrom(es, n))
    && (forall n: nat, t :: t in run(n).outstanding ==> AnsweredFrom(run, es, n, t))
    && (forall n: nat :: QuietAt(run, es, quiet, n))
  }

  // ---- what is waited for has been asked for ---------------------------------------------------

  /** The link has been asked for where the session waits for it, and so has the network. */
  ghost predicate Awaited(c: Tracked) {
    var s := c.now.session;
    && (s.step < SETUP_LINK ==> !s.setupLinkDone)
    && (s.step == SETUP_LINK && s.setupLinkDone && !c.now.linkRefused ==>
          exists t :: t in c.outstanding && t.request.AddLink?)
    && (s.step == WAIT_NET_START ==> exists t :: t in c.outstanding && t.request.StartNetwork?)
  }

  /** An answered request leaves the others outstanding. */
  lemma {:induction false} OthersStay(sent: seq<Sent>, k: nat, t: Sent)
    requires k < |sent| && t in sent && t != sent[k]
    ensures t in Without(sent, k)
  {
    var j :| 0 <= j < |sent| && sent[j] == t;
    assert Without(sent, k)[if j < k then j else j - 1] == t;
  }

  lemma {:induction false} AwaitedTick(c: Tracked)
    requires Ok(c) && Awaited(c) && Enabled(c, Ticks)
    ensures Awaited(Next(c, Ticks))
  {
    var d := Next(c, Ticks);
    assert c.outstanding <= d.outstanding;
    if c.now.session.step == SETUP_LINK || c.now.session.step == DO_START_NETWORK {
      if Tick(c.now.session).1.Send? { assert d.outstanding[|c.outstanding|] in d.outstanding; }
    }
  }

  /** A timely reply leaves a step it is waited at only by being the reply waited for. */
  lemma {:induction false} ReplyMoves(c: Tracked, k: nat, r: Reply)
    requires Ok(c) && Enabled(c, Replies(k, r)) && Timely(c, Replies(k, r))
    ensures var s, d := c.now.session, Next(c, Replies(k, r)).now;
            (s.step < SETUP_LINK ==> d.session.step < SETUP_LINK) &&
            (s.step >= SETUP_LINK ==> d.session.step >= SETUP_LINK) &&
            d.session.setupLinkDone == s.setupLinkDone &&
            (c.now.linkRefused ==> d.linkRefused) &&
            (d.session.step == SETUP_LINK ==> s.step == SETUP_LINK && (r.LinkAdded? ==> d.linkRefused)) &&
            (d.session.step == WAIT_NET_START ==> s.step == WAIT_NET_START && !r.NetworkStarted?)
  {
  }

  lemma {:induction false} AwaitedReply(c: Tracked, k: nat, r: Reply)
    requires Ok(c) && Awaited(c) && Enabled(c, Replies(k, r)) && Timely(c, Replies(k, r))
    ensures Awaited(Next(c, Replies(k, r)))
  {
    ReplyMoves(c, k, r);
    var d := Next(c, Replies(k, r));
    assert Without(c.outstanding, k) <= d.outstanding;
    if d.now.session.step == SETUP_LINK && d.now.session.setupLinkDone && !d.now.linkRefused {
      var t :| t in c.outstanding && t.request.AddLink?;
      OthersStay(c.outstanding, k, t);
    }
    if d.now.session.step == WAIT_NET_START {
      var t :| t in c.outstanding && t.request.StartNetwork?;
      OthersStay(c.outstanding, k, t);
    }
  }

  lemma {:induction false} AwaitedNext(c: Tracked, e: Event)
    requires Ok(c) && Awaited(c) && Enabled(c, e) && Timely(c, e)
    ensures Ok(Next(c, e)) && Awaited(Next(c, e))
  {
    OkNext(c, e);
    match e
    case Initiates(_) =>
    case Ticks => AwaitedTick(c);
    case Replies(k, r) => AwaitedReply(c, k, r);
  }

  lemma {:induction false} TimelyRunsAwait(es: seq<Event>)
    requires AllTimely(es)
    ensures After(es).Some? && Ok(After(es).value) && Awaited(After(es).value)
  {
    TimelyRunsOk(es);
    if es != [] {
      var front := es[..|es| - 1];
      TimelyRunsAwait(front);
      AwaitedNext(After(front).value, es[|es| - 1]);
    }
  }

  // ---- every event moves the session or leaves it at its step ------------------------------------

  /** From SETUP_LINK on: what is kept by every event of such a schedule. */
  ghost predicate UnderWay(c: Tracked) {
    Ok(c) && Awaited(c) && c.now.session.step >= SETUP_LINK
  }

  function Left(step: Byte): nat {
    if step == FINISHED then 0 else if step <= BIND_DATA_PORT_IPV6 then 14 - step else 15
  }

  predicate Moves(c: Tracked, e: Event) {
    var d := Onward(c, e);
    d.now.notices > c.now.notices || FailsAt(c, e) || Left(d.now.session.step) < Left(c.now.session.step)
  }

  lemma {:induction false} TickStep(c: Tracked)
    requires UnderWay(c) && Enabled(c, Ticks)
    ensures var s, d := c.now.session, Next(c, Ticks).now;
            d.session.step >= SETUP_LINK && d.linkRefused == c.now.linkRefused &&
            if s.step == FINISHED then d.notices == c.now.notices + 1
            else
              d.notices == c.now.notices && d.timers == c.now.timers &&
              if s.step in [SETUP_LINK, BIND_DATA_PORT, WAIT_NET_START, GET_SETTINGS] then d.session.step == s.step
              else Left(d.session.step) < Left(s.step)
  {
  }

  lemma {:induction false} ReplyStep(c: Tracked, k: nat, r: Reply)
    requires UnderWay(c) && Enabled(c, Replies(k, r)) && Timely(c, Replies(k, r))
    requires !WdsSerial.Fails(WdsSerial.Replies(r))
    ensures var s, d := c.now.session, Next(c, Replies(k, r)).now;
            d.notices == c.now.notices && d.timers == c.now.timers &&
            (d.session.step == s.step || Left(d.session.step) < Left(s.step))
  {
  }

  /** An event that does not move the session leaves it at its step, with its timers. */
  lemma {:induction false} StaysOrMoves(c: Tracked, e: Event)
    requires UnderWay(c) && !e.Initiates? && (Enabled(c, e) ==> Timely(c, e))
    ensures UnderWay(Onward(c, e))
    ensures !Moves(c, e) ==> Onward(c, e).now.session.step == c.now.session.step
    ensures var d := Onward(c, e).now;
            c.now.notices <= d.notices && d.notices + d.timers == c.now.notices + c.now.timers
  {
    if Enabled(c, e) {
      AwaitedNext(c, e);
      if e.Ticks? {
        TickStep(c);
      } else {
        ReplyMoves(c, e.k, e.reply);
        assert c.initiations == Next(c, e).initiations;
        if !FailsAt(c, e) { ReplyStep(c, e.k, e.reply); }
      }
    }
  }

  // ---- something that moves the session comes ------------------------------------------------------

  /** The request is the one the session waits for at its step. */
  predicate WaitedFor(step: Byte, t: Sent) {
    match t.request
    case AddLink => step == SETUP_LINK
    case BindPort(_) => step == BIND_DATA_PORT
    case StartNetwork(_) => step == WAIT_NET_START
    case GetCurrentSettings => step == GET_SETTINGS
    case _ => false
  }

  lemma {:induction false} AnswerMoves(c: Tracked, e: Event, t: Sent)
    requires UnderWay(c) && AnswersAt(c, e, t) && Timely(c, e) && WaitedFor(c.now.session.step, t)
    ensures Moves(c, e)
  {
  }

  /** A tick moves the session, or the request it waits for is outstanding after it. */
  lemma {:induction false} TickAsks(c: Tracked)
    requires UnderWay(c) && c.now.timers > 0 && !c.now.linkRefused
    ensures Enabled(c, Ticks)
    ensures Moves(c, Ticks) || Asked(Next(c, Ticks))
  {
    TickStep(c);
    var d := Next(c, Ticks);
    if !Moves(c, Ticks) {
      AwaitedNext(c, Ticks);
      if d.now.session.step == SETUP_LINK {
        var t :| t in d.outstanding && t.request.AddLink?;
        assert WaitedFor(SETUP_LINK, t);
      } else if d.now.session.step == WAIT_NET_START {
        var t :| t in d.outstanding && t.request.StartNetwork?;
        assert WaitedFor(WAIT_NET_START, t);
      } else {
        var t := d.outstanding[|c.outstanding|];
        assert t in d.outstanding && WaitedFor(d.now.session.step, t);
      }
    }
  }

  /** The request the session waits for is outstanding. */
  ghost predicate Asked(c: Tracked) {
    exists t :: t in c.outstanding && WaitedFor(c.now.session.step, t)
  }

  // ---- along a course ----------------------------------------------------------------------------

  lemma {:induction false} Always(p: nat -> bool, n: nat)
    requires p(0) && forall k: nat :: p(k) ==> p(k + 1)
    ensures p(n)
    decreases n
  {
    if n > 0 {
      var k: nat := n - 1;
      Always(p, k);
      assert p(k + 1);
    }
  }

  /** What every event of a proper course keeps. */
  ghost predicate Sound(c: Tracked, d: Tracked) {
    && Ok(d) && Awaited(d) && d.initiations == c.initiations && c.now.notices <= d.now.notices
  }

  lemma {:induction false} SoundNext(c: Tracked, d: Tracked, e: Event)
    requires Sound(c, d) && InTime(d, e)
    ensures Sound(c, Onward(d, e))
  {
    if Enabled(d, e) { AwaitedNext(d, e); }
  }

  lemma {:induction false} CourseSound(run: Course, es: Schedule, quiet: nat, n: nat)
    requires Ok(run(0)) && Awaited(run(0)) && Proper(run, es, quiet)
    ensures Sound(run(0), run(n))
  {
    var p := (k: nat) => Sound(run(0), run(k));
    forall k: nat | p(k) ensures p(k + 1) {
      assert Goes(run, es, k) && InTimeAt(run, es, k);
      SoundNext(run(0), run(k), es(k));
    }
    Always(p, n);
    assert p(n);
  }

  /** A course that has come to SETUP_LINK by event `from` is under way from there on. */
  lemma {:induction false} CourseUnderWay(run: Course, es: Schedule, quiet: nat, from: nat, n: nat)
    requires Proper(run, es, quiet) && UnderWay(run(from))
    ensures UnderWay(run(from + n))
  {
    var p := (k: nat) => UnderWay(run(from + k));
    forall k: nat | p(k) ensures p(k + 1) {
      assert Goes(run, es, from + k) && InTimeAt(run, es, from + k);
      StaysOrMoves(run(from + k), es(from + k));
      assert from + k + 1 == from + (k + 1);
    }
    assert p(0);
    Always(p, n);
    assert p(n);
  }

  // ---- moves follow each other --------------------------------------------------------------------

  datatype Mark = Mark(step: Byte, notices: nat)

  function MarkOf(c: Tracked): Mark {
    Mark(c.now.session.step, c.now.notices)
  }

  /** A notification, or a step nearer to the end. */
  predicate Moved(a: Mark, b: Mark) {
    b.notices > a.notices || Left(b.step) < Left(a.step)
  }

  /** What the marks say of one moment. */
  ghost predicate MarksOk(moves: nat -> bool, mark: nat -> Mark, k: nat) {
    if moves(k) then Moved(mark(k), mark(k + 1)) else mark(k + 1) == mark(k)
  }

  /** Something moves the session from `n` on, and until then it stands where it stood. */
  ghost predicate MoveAfter(moves: nat -> bool, mark: nat -> Mark, n: nat) {
    exists j: nat :: n <= j && moves(j) && mark(j) == mark(n)
  }

  lemma {:induction false} FirstMove(moves: nat -> bool, mark: nat -> Mark, n: nat, m: nat)
    requires n <= m && forall k: nat :: MarksOk(moves, mark, k)
    ensures MoveAfter(moves, mark, n) || (mark(m) == mark(n) && !moves(n))
    decreases m - n
  {
    if moves(n) {
      assert mark(n) == mark(n);
    } else if n < m {
      assert MarksOk(moves, mark, n);
      FirstMove(moves, mark, n + 1, m);
      if MoveAfter(moves, mark, n + 1) { AfterLater(moves, mark, n, n + 1); }
    }
  }

  lemma {:induction false} AfterLater(moves: nat -> bool, mark: nat -> Mark, n: nat, m: nat)
    requires n <= m && mark(m) == mark(n) && MoveAfter(moves, mark, m)
    ensures MoveAfter(moves, mark, n)
  {
    var j: nat :| m <= j && moves(j) && mark(j) == mark(m);
    assert n <= j && moves(j) && mark(j) == mark(n);
  }

  /** The next move notifies, or fewer steps are left. */
  lemma {:induction false} NextMove(moves: nat -> bool, mark: nat -> Mark, n: nat) returns (m: nat)
    requires forall k: nat :: MarksOk(moves, mark, k)
    requires MoveAfter(moves, mark, n)
    ensures Moved(mark(n), mark(m))
  {
    var j: nat :| n <= j && moves(j) && mark(j) == mark(n);
    assert MarksOk(moves, mark, j);
    m := j + 1;
  }

  /** Until something has been told, something moves the session. */
  ghost predicate MoveDue(moves: nat -> bool, mark: nat -> Mark, told: nat, n: nat) {
    told <= mark(n).notices && (mark(n).notices == told ==> MoveAfter(moves, mark, n))
  }

  /** Moves follow each other until one of them notifies. */
  lemma {:induction false} MovesNotify(moves: nat -> bool, mark: nat -> Mark, told: nat, n: nat) returns (m: nat)
    requires forall k: nat :: MarksOk(moves, mark, k)
    requires forall k: nat :: MoveDue(moves, mark, told, k)
    ensures mark(m).notices > told
    decreases Left(mark(n).step)
  {
    if mark(n).notices > told { return n; }
    assert MoveDue(moves, mark, told, n);
    var j := NextMove(moves, mark, n);
    assert MoveDue(moves, mark, told, j);
    if mark(j).notices > told { return j; }
    m := MovesNotify(moves, mark, told, j);
  }

  // ---- something that moves the session comes ------------------------------------------------------

  ghost predicate MoveTold(run: Course, es: Schedule, from: nat, moves: nat -> bool, k: nat) {
    moves(k) == Moves(run(from + k), es(from + k))
  }

  ghost predicate MarkTold(run: Course, from: nat, mark: nat -> Mark, k: nat) {
    mark(k) == MarkOf(run(from + k))
  }

  /** A course under way from event `from` on, nothing failing, told by moves and marks. */
  ghost predicate Tells(run: Course, es: Schedule, from: nat, moves: nat -> bool, mark: nat -> Mark) {
    && (forall k: nat :: MoveTold(run, es, from, moves, k))
    && (forall k: nat :: MarkTold(run, from, mark, k))
    && (forall k: nat :: MarksOk(moves, mark, k))
  }

  lemma {:induction false} MarkStep(c: Tracked, e: Event)
    requires UnderWay(c) && InTime(c, e) && !FailsAt(c, e)
    ensures if Moves(c, e) then Moved(MarkOf(c), MarkOf(Onward(c, e))) else MarkOf(Onward(c, e)) == MarkOf(c)
  {
    StaysOrMoves(c, e);
  }

  lemma {:induction false} CourseMark(run: Course, es: Schedule, quiet: nat, from: nat, k: nat)
    requires Proper(run, es, quiet) && UnderWay(run(from)) && quiet <= from
    ensures var a, b := MarkOf(run(from + k)), MarkOf(run(from + k + 1));
            if Moves(run(from + k), es(from + k)) then Moved(a, b) else b == a
  {
    CourseUnderWay(run, es, quiet, from, k);
    assert Goes(run, es, from + k) && InTimeAt(run, es, from + k) && QuietAt(run, es, quiet, from + k);
    MarkStep(run(from + k), es(from + k));
  }

  lemma {:induction false} ToldMarks(run: Course, es: Schedule, quiet: nat, from: nat,
                                     moves: nat -> bool, mark: nat -> Mark, k: nat)
    requires Proper(run, es, quiet) && UnderWay(run(from)) && quiet <= from
    requires MoveTold(run, es, from, moves, k) && MarkTold(run, from, mark, k) && MarkTold(run, from, mark, k + 1)
    ensures MarksOk(moves, mark, k)
  {
    CourseMark(run, es, quiet, from, k);
    assert from + k + 1 == from + (k + 1);
  }

  lemma {:induction false} AllTold(run: Course, es: Schedule, quiet: nat, from: nat,
                                   moves: nat -> bool, mark: nat -> Mark)
    requires Proper(run, es, quiet) && UnderWay(run(from)) && quiet <= from
    requires forall k: nat :: MoveTold(run, es, from, moves, k)
    requires forall k: nat :: MarkTold(run, from, mark, k)
    ensures Tells(run, es, from, moves, mark)
  {
    forall k: nat ensures MarksOk(moves, mark, k) {
      ToldMarks(run, es, quiet, from, moves, mark, k);
    }
  }

  lemma {:induction false} CourseMarks(run: Course, es: Schedule, from: nat)
    returns (moves: nat -> bool, mark: nat -> Mark)
    ensures forall k: nat :: MoveTold(run, es, from, moves, k)
    ensures forall k: nat :: MarkTold(run, from, mark, k)
  {
    moves := (k: nat) => Moves(run(from + k), es(from + k));
    mark := (k: nat) => MarkOf(run(from + k));
  }

  lemma {:induction false} CourseTells(run: Course, es: Schedule, quiet: nat, from: nat)
    returns (moves: nat -> bool, mark: nat -> Mark)
    requires Proper(run, es, quiet) && UnderWay(run(from)) && quiet <= from
    ensures Tells(run, es, from, moves, mark)
  {
    moves, mark := CourseMarks(run, es, from);
    AllTold(run, es, quiet, from, moves, mark);
  }

  /** Event `m` answers the request waited for at event `n`. */
  ghost predicate AnswerDue(run: Course, es: Schedule, n: nat, m: nat, t: Sent) {
    n <= m && AnswersAt(run(m), es(m), t) && WaitedFor(MarkOf(run(n)).step, t)
  }

  lemma {:induction false} AskedDue(run: Course, es: Schedule, quiet: nat, n: nat) returns (m: nat, t: Sent)
    requires Proper(run, es, quiet) && Asked(run(n))
    ensures AnswerDue(run, es, n, m, t)
  {
    t :| t in run(n).outstanding && WaitedFor(run(n).now.session.step, t);
    assert AnsweredFrom(run, es, n, t);
    m :| n <= m && AnswersAt(run(m), es(m), t);
  }

  /** If the session still stands where it stood, the answer moves it. */
  lemma {:induction false} AnswerMovesIt(run: Course, es: Schedule, quiet: nat, from: nat, n: nat, m: nat, t: Sent)
    requires Proper(run, es, quiet) && UnderWay(run(from)) && from <= m
    requires AnswerDue(run, es, n, m, t) && MarkOf(run(m)) == MarkOf(run(n))
    ensures Moves(run(m), es(m))
  {
    CourseUnderWay(run, es, quiet, from, m - from);
    assert from + (m - from) == m && InTimeAt(run, es, m);
    AnswerMoves(run(m), es(m), t);
  }

  /** The reply waited for comes, or something moves the session before. */
  lemma {:induction false} AnswerComes(run: Course, es: Schedule, quiet: nat, from: nat, n: nat,
                                       moves: nat -> bool, mark: nat -> Mark)
    requires Proper(run, es, quiet) && UnderWay(run(from)) && Tells(run, es, from, moves, mark)
    requires Asked(run(from + n))
    ensures MoveAfter(moves, mark, n)
  {
    var m, t := AskedDue(run, es, quiet, from + n);
    var k: nat := m - from;
    FirstMove(moves, mark, n, k);
    if mark(k) == mark(n) {
      assert from + k == m;
      assert MarkTold(run, from, mark, k) && MarkTold(run, from, mark, n);
      AnswerMovesIt(run, es, quiet, from, from + n, m, t);
      assert MoveTold(run, es, from, moves, k);
    }
  }

  /** Behind a tick that does not move the session, what it waits for has been asked. */
  lemma {:induction false} AskedAfter(run: Course, es: Schedule, quiet: nat, from: nat, n: nat)
    requires Proper(run, es, quiet) && UnderWay(run(from))
    requires es(from + n).Ticks? && run(from + n).now.timers > 0 && !Moves(run(from + n), es(from + n))
    ensures Asked(run(from + (n + 1)))
  {
    CourseUnderWay(run, es, quiet, from, n);
    assert QuietAt(run, es, quiet, from + n) && Goes(run, es, from + n);
    TickAsks(run(from + n));
    assert from + n + 1 == from + (n + 1);
  }

  /** From a tick on, something moves the session. */
  lemma {:induction false} TickLeads(run: Course, es: Schedule, quiet: nat, from: nat, n: nat,
                                     moves: nat -> bool, mark: nat -> Mark)
    requires Proper(run, es, quiet) && UnderWay(run(from)) && Tells(run, es, from, moves, mark)
    requires es(from + n).Ticks? && run(from + n).now.timers > 0
    ensures MoveAfter(moves, mark, n)
  {
    if moves(n) {
      assert mark(n) == mark(n);
    } else {
      assert MoveTold(run, es, from, moves, n);
      AskedAfter(run, es, quiet, from, n);
      AnswerComes(run, es, quiet, from, n + 1, moves, mark);
      assert MarksOk(moves, mark, n);
      AfterLater(moves, mark, n, n + 1);
    }
  }

  /** Where the session stands as at `n`, its timer is alive. */
  ghost predicate AliveAt(run: Course, from: nat, mark: nat -> Mark, n: nat, k: nat) {
    mark(k) == mark(n) ==> run(from + k).now.timers > 0
  }

  lemma {:induction false} MoveComes(run: Course, es: Schedule, quiet: nat, from: nat, n: nat,
                                     moves: nat -> bool, mark: nat -> Mark)
    requires Proper(run, es, quiet) && UnderWay(run(from)) && Tells(run, es, from, moves, mark)
    requires forall k: nat :: AliveAt(run, from, mark, n, k)
    ensures MoveAfter(moves, mark, n)
  {
    assert TicksFrom(es, from + n);
    var m: nat :| from + n <= m && es(m).Ticks?;
    var k: nat := m - from;
    FirstMove(moves, mark, n, k);
    if mark(k) == mark(n) {
      assert AliveAt(run, from, mark, n, k);
      TickLeads(run, es, quiet, from, k, moves, mark);
      AfterLater(moves, mark, n, k);
    }
  }

  /** As long as nothing has been told, the timer is alive. */
  lemma {:induction false} TimerAlive(run: Course, es: Schedule, quiet: nat, n: nat)
    requires Ok(run(0)) && Awaited(run(0)) && Proper(run, es, quiet)
    requires run(0).now.timers > 0 && run(n).now.notices <= run(0).now.notices
    ensures run(n).now.timers > 0
  {
    CourseSound(run, es, quiet, n);
  }

  ghost predicate Notifies(run: Course) {
    exists n: nat :: run(n).now.notices > run(0).now.notices
  }

  ghost predicate ComesToLink(run: Course) {
    exists n: nat :: run(n).now.session.step >= SETUP_LINK
  }

  lemma {:induction false} UnderWayNotifies(run: Course, es: Schedule, quiet: nat, from: nat)
    requires Ok(run(0)) && Awaited(run(0)) && run(0).now.timers > 0 && Proper(run, es, quiet)
    requires UnderWay(run(from)) && quiet <= from
    ensures Notifies(run)
  {
    var moves, mark := CourseTells(run, es, quiet, from);
    var told := run(0).now.notices;
    forall n: nat ensures MoveDue(moves, mark, told, n) {
      CourseSound(run, es, quiet, from + n);
      assert MarkTold(run, from, mark, n);
      if mark(n).notices <= told {
        forall k: nat ensures AliveAt(run, from, mark, n, k) {
          assert MarkTold(run, from, mark, k);
          if mark(k) == mark(n) { TimerAlive(run, es, quiet, from + k); }
        }
        MoveComes(run, es, quiet, from, n, moves, mark);
      }
    }
    var m := MovesNotify(moves, mark, told, 0);
    assert MarkTold(run, from, mark, m);
  }

  lemma {:induction false} LinkLeads(run: Course, es: Schedule, quiet: nat, n: nat)
    requires Ok(run(0)) && Awaited(run(0)) && run(0).now.timers > 0 && Proper(run, es, quiet)
    requires run(n).now.session.step >= SETUP_LINK
    ensures Notifies(run)
  {
    CourseSound(run, es, quiet, n);
    CourseUnderWay(run, es, quiet, n, quiet);
    UnderWayNotifies(run, es, quiet, n + quiet);
  }

  /** Only at FINISHED does an event notify. */
  lemma {:induction false} NoticeAtEnd(c: Tracked, e: Event)
    requires Onward(c, e).now.notices > c.now.notices
    ensures c.now.session.step == FINISHED
  {
  }

  lemma {:induction false} NoticeFromLink(run: Course, es: Schedule, n: nat)
    requires forall k: nat :: Goes(run, es, k)
    requires run(n).now.notices > run(0).now.notices
    ensures ComesToLink(run)
    decreases n
  {
    var k: nat := n - 1;
    assert Goes(run, es, k);
    if run(k).now.notices > run(0).now.notices {
      NoticeFromLink(run, es, k);
    } else {
      NoticeAtEnd(run(k), es(k));
    }
  }

  /**
   Progress of timely runs: from any timely run with a timer alive, on any
   course without initiations that stays timely, keeps ticking, answers every
   outstanding request, fails finitely often and never refuses the link, the
   session notifies exactly when it comes to SETUP_LINK.
   */
  lemma {:induction false} NotifiesIffComesToLink(before: seq<Event>, run: Course, es: Schedule, quiet: nat)
    requires AllTimely(before) && After(before) == Some(run(0)) && run(0).now.timers > 0
    requires Proper(run, es, quiet)
    ensures Notifies(run) <==> ComesToLink(run)
  {
    TimelyRunsAwait(before);
    if n: nat :| run(n).now.session.step >= SETUP_LINK { LinkLeads(run, es, quiet, n); }
    if n: nat :| run(n).now.notices > run(0).now.notices { NoticeFromLink(run, es, n); }
  }

  // ---- a profile scan restarted for ever --------------------------------------------------------

  const PROFILES: seq<Byte> := [1, 1]
  const LIST_SENT := Sent(GetProfileList, GET_PROFILES, 1)
  const DETAIL_SENT := Sent(GetProfileSettings(1), GET_PROFILES, 1)

  /** A tick asks for the list again, the list restarts the scan, one profile is looked at; and so on. */
  function Restarts(): Schedule {
    (n: nat) =>
      if n % 3 == 0 then Ticks
      else if n % 3 == 1 then Replies(n / 3 + 1, ProfileList(Some(PROFILES)))
      else Replies(0, ProfileSettings(None))
  }

  predicate Details(sent: seq<Sent>, n: nat) {
    |sent| == n && forall k :: 0 <= k < n ==> sent[k] == DETAIL_SENT
  }

  /** Where the session stands after `n` events of that schedule. */
  predicate Scanning(c: Tracked, n: nat) {
    var s := c.now.session;
    && s.step == GET_PROFILES && s.profileId == 0 && |s.ip| == Inet.IP_BUFFER_SIZE
    && s.scan.Some? && s.scan.value.profiles == PROFILES
    && c.initiations == 1 && c.now.timers == 1 && c.now.notices == 0 && !c.now.linkRefused
    && if n % 3 == 0 then Details(c.outstanding, n / 3 + 1)
       else if n % 3 == 1 then
         |c.outstanding| == n / 3 + 2 && Details(c.outstanding[..n / 3 + 1], n / 3 + 1) &&
         c.outstanding[n / 3 + 1] == LIST_SENT
       else s.scan.value.i == 0 && Details(c.outstanding, n / 3 + 2)
  }

  lemma {:induction false} ScansOn(c: Tracked, n: nat)
    requires Scanning(c, n)
    ensures var e := Restarts()(n);
            Enabled(c, e) && Timely(c, e) && !FailsAt(c, e) && !e.Initiates? && Scanning(Next(c, e), n + 1)
  {
    var e := Restarts()(n);
    if n % 3 == 0 {
      assert Next(c, e).outstanding == c.outstanding + [LIST_SENT];
      assert (n + 1) / 3 == n / 3;
    } else if n % 3 == 1 {
      assert Without(c.outstanding, n / 3 + 1) == c.outstanding[..n / 3 + 1];
      assert Next(c, e).outstanding == c.outstanding[..n / 3 + 1] + [DETAIL_SENT];
      assert (n + 1) / 3 == n / 3;
    } else {
      assert Without(c.outstanding, 0) == c.outstanding[1..];
      assert Next(c, e).outstanding == c.outstanding[1..] + [DETAIL_SENT];
      assert (n + 1) / 3 == n / 3 + 1;
    }
  }

  function ScanCourse(c: Tracked, n: nat): Tracked {
    if n == 0 then c else Onward(ScanCourse(c, n - 1), Restarts()(n - 1))
  }

  lemma {:induction false} ScansAlong(run: Course, n: nat)
    requires Scanning(run(0), 0) && forall k: nat :: Goes(run, Restarts(), k)
    ensures Scanning(run(n), n)
  {
    var p := (k: nat) => Scanning(run(k), k);
    forall k: nat | p(k) ensures p(k + 1) {
      assert Goes(run, Restarts(), k);
      ScansOn(run(k), k);
    }
    Always(p, n);
    assert p(n);
  }

  /** Which requests are outstanding, and which event answers them next. */
  lemma {:induction false} ScanOutstanding(c: Tracked, n: nat, t: Sent)
    requires Scanning(c, n) && t in c.outstanding
    ensures t == DETAIL_SENT || (t == LIST_SENT && n % 3 == 1)
  {
    var k :| 0 <= k < |c.outstanding| && c.outstanding[k] == t;
    if n % 3 == 1 && k < n / 3 + 1 { assert c.outstanding[..n / 3 + 1][k] == t; }
  }

  lemma {:induction false} ScanAnswer(c: Tracked, n: nat)
    requires Scanning(c, n)
    ensures n % 3 == 1 ==> AnswersAt(c, Restarts()(n), LIST_SENT)
    ensures n % 3 == 2 ==> AnswersAt(c, Restarts()(n), DETAIL_SENT)
  {
    ScansOn(c, n);
  }

  /** Each of the two kinds of request is answered again and again. */
  lemma {:induction false} ScanAnswers(run: Course, n: nat, t: Sent)
    requires Scanning(run(0), 0) && forall k: nat :: Goes(run, Restarts(), k)
    requires t in run(n).outstanding
    ensures AnsweredFrom(run, Restarts(), n, t)
  {
    ScansAlong(run, n);
    ScanOutstanding(run(n), n, t);
    var m: nat := if t == LIST_SENT then n else 3 * n + 2;
    ScansAlong(run, m);
    ScanAnswer(run(m), m);
    assert AnswersAt(run(m), Restarts()(m), t);
  }

  lemma {:induction false} TimelyThen(es: seq<Event>, e: Event) returns (r: seq<Event>)
    requires AllTimely(es) && After(es).Some? && Enabled(After(es).value, e) && Timely(After(es).value, e)
    ensures AllTimely(r) && After(r) == Some(Next(After(es).value, e))
  {
    r := es + [e];
    assert r[..|r| - 1] == es && r[|r| - 1] == e;
  }

  lemma {:induction false} ToScan() returns (before: seq<Event>)
    ensures AllTimely(before) && After(before).Some? && Scanning(After(before).value, 0)
  {
    before := [];
    assert After(before) == Some(BEGIN);
    before := TimelyThen(before, Initiates(0));
    before := TimelyThen(before, Ticks);
    before := TimelyThen(before, Replies(0, ProfileList(Some(PROFILES))));
  }

  lemma {:induction false} ScanIsProper(run: Course)
    requires Scanning(run(0), 0) && forall k: nat :: Goes(run, Restarts(), k)
    ensures Proper(run, Restarts(), 0)
  {
    var es := Restarts();
    forall n: nat ensures TicksFrom(es, n) {
      assert n <= 3 * n && es(3 * n).Ticks?;
    }
    forall n: nat, t | t in run(n).outstanding ensures AnsweredFrom(run, es, n, t) {
      ScanAnswers(run, n, t);
    }
    forall n: nat ensures InTimeAt(run, es, n) && QuietAt(run, es, 0, n) {
      ScansAlong(run, n);
      ScansOn(run(n), n);
    }
  }

  lemma {:induction false} ScanRun(c: Tracked) returns (run: Course, es: Schedule)
    ensures run(0) == c && es == Restarts() && forall k: nat :: Goes(run, es, k)
  {
    run, es := (n: nat) => ScanCourse(c, n), Restarts();
    forall k: nat ensures Goes(run, es, k) {
      assert run(k + 1) == ScanCourse(c, k + 1) && run(k) == ScanCourse(c, k);
    }
  }

  /**
   It need not come there: every request is answered, nothing fails, the course
   is timely, and the profile scan starts over and over.
   */
  lemma {:induction false} ScanRestartsForever() returns (before: seq<Event>, run: Course, es: Schedule)
    ensures AllTimely(before) && After(before) == Some(run(0)) && run(0).now.timers > 0
    ensures Proper(run, es, 0) && !Notifies(run)
  {
    before := ToScan();
    var c := After(before).value;
    run, es := ScanRun(c);
    ScanIsProper(run);
    forall n: nat ensures run(n).now.notices <= run(0).now.notices {
      ScansAlong(run, n);
    }
  }
}
