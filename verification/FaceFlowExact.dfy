/** What every frame does to a session and why it gives up, read off the raw signals. */
module FaceFlowExact {
  import opened Common
  import opened IdentitySessions
  import opened FaceMatcher
  import opened FaceFlow
  import opened FaceFlowTheorems

  // ---------- one frame ----------

  /** A face of good quality. */
  predicate GoodFace(f: Frame) {
    f.face.Some? && f.face.value.pass
  }

  /** A missing liveness counts as none at all. */
  predicate LowLiveness(cfg: Config, f: Frame) {
    GoodFace(f) && match f.face.value.liveness
                   case Some(l) => l < cfg.livenessThreshold
                   case None => 0.0 < cfg.livenessThreshold
  }

  lemma IsLiveIff(cfg: Config, f: Frame)
    ensures IsLive(cfg, f) <==> GoodFace(f) && !LowLiveness(cfg, f) && f.face.value.embedding.Some?
  {
  }

  /** The frame shows, first and in time, the person of the challenge `c`. */
  ghost predicate InTime(cfg: Config, c: Challenge, f: Frame) {
    IsLive(cfg, f) && f.answeredAt <= c.deadline && TopUser(cfg, f) == Some(c.userId)
  }

  /** The movement that answers a challenge: a pose with a yaw below -15 for a left turn and above 15 for a right
      turn, a pitch below -12 for a nod, and both eyes above .5 for a blink. */
  lemma MovedIff(cfg: Config, s: Slice, f: Frame)
    requires FlowOf(s).challenge.Some? && InTime(cfg, FlowOf(s).challenge.value, f)
    requires !FlowOf(s).challenge.value.moved
    ensures var (after, answer) := FinishFrame(cfg, s, f);
            var c, x := FlowOf(s).challenge.value, f.face.value.signals;
            var moves := match c.kind
                         case TurnLeft => x.pose.Some? && x.pose.value.yaw < -15.0
                         case TurnRight => x.pose.Some? && x.pose.value.yaw > 15.0
                         case Nod => x.pose.Some? && x.pose.value.pitch < -12.0
                         case Blink => x.blinkLeft.Some? && x.blinkRight.Some?
                                       && x.blinkLeft.value > 0.5 && x.blinkRight.value > 0.5;
            && after.flow.Some? && after.flow.value.challenge == Some(c.(moved := moves))
            && answer == ToChallenge(c.kind, c.deadline) && after.session == s.session
  {
    hide FindMatch;
  }

  /** Once moved, the session is issued by the first frame in time that shows the face at rest: a pitch within 5
      degrees after a nod, a yaw within 5 degrees after a turn, one eye below .2 after a blink. */
  lemma IssuedIffAtRest(cfg: Config, s: Slice, f: Frame)
    requires FlowOf(s).challenge.Some? && InTime(cfg, FlowOf(s).challenge.value, f)
    requires FlowOf(s).challenge.value.moved
    ensures var (after, answer) := FinishFrame(cfg, s, f);
            var c, x := FlowOf(s).challenge.value, f.face.value.signals;
            var rests := match c.kind
                         case Blink => x.blinkLeft.None? || x.blinkRight.None?
                                       || x.blinkLeft.value < 0.2 || x.blinkRight.value < 0.2
                         case Nod => x.pose.None? || -5.0 < x.pose.value.pitch < 5.0
                         case TurnLeft => x.pose.None? || -5.0 < x.pose.value.yaw < 5.0
                         case TurnRight => x.pose.None? || -5.0 < x.pose.value.yaw < 5.0;
            && answer == (if rests then ToIssued(c.userId, Face) else ToChallenge(c.kind, c.deadline))
            && after.flow == s.flow
  {
    hide FindMatch;
  }

  /** The roster entry that a frame comes nearest to, and whether it is near and clear enough. */
  datatype Verdict = Unknown | Unclear | Clear(userId: string)

  ghost function VerdictOf(cfg: Config, f: Frame): Verdict
    requires IsLive(cfg, f)
  {
    match MatchOf(cfg, f)
    case None => Unknown
    case Some(m) =>
      if m.score < cfg.threshold then Unknown
      else if m.score < m.runnerUp + cfg.margin then Unclear else Clear(m.userId)
  }

  /** A session gives up exactly on its third face of low liveness, its tenth unclear one, or a frame that does
      not carry its challenge on. */
  lemma GivesUpIff(cfg: Config, s: Slice, f: Frame)
    ensures var answer, flow := FinishFrame(cfg, s, f).1, FlowOf(s);
            && (answer == ToFallback("spoof_retry") <==> LowLiveness(cfg, f) && 2 <= flow.spoof)
            && (answer == ToFallback("challenge_failed") <==>
                  IsLive(cfg, f) && flow.challenge.Some? && !InTime(cfg, flow.challenge.value, f))
            && (answer == ToFallback("ambiguous") <==>
                  IsLive(cfg, f) && flow.challenge.None? && VerdictOf(cfg, f) == Unclear && 9 <= flow.ambiguous)
            && (answer.ToFallback? ==> answer.reason in ["spoof_retry", "challenge_failed", "ambiguous"])
  {
    hide FindMatch;
  }

  /** The hint of a frame that leaves the session scanning. */
  lemma HintSaysWhy(cfg: Config, s: Slice, f: Frame)
    requires FinishFrame(cfg, s, f).1.StillScanning?
    ensures FinishFrame(cfg, s, f).1.hint ==
              if f.face.None? then Some("no_face")
              else if !GoodFace(f) then Some(if f.face.value.firstFail.Some? then f.face.value.firstFail.value
                                             else "hold_still")
              else if LowLiveness(cfg, f) then Some("spoof_retry")
              else if f.face.value.embedding.None? then Some("hold_still")
              else match VerdictOf(cfg, f)
                case Unknown => Some("no_match")
                case Unclear => Some("ambiguous")
                case Clear(_) => None
  {
    hide FindMatch;
  }

  /** A frame begins exactly for a session that is there, unexpired and undecided; it extends the session. */
  lemma BeginsIff(cfg: Config, s: Slice, now: int)
    ensures var r := BeginFrame(cfg, s, now);
            && (r.Some? <==> s.session.Some? && now < s.session.value.expiresAt
                             && s.session.value.state != Issued && s.session.value.state != Fallback)
            && (r.Some? ==> r.value == Slice(Some(s.session.value.(expiresAt := now + cfg.ttlMs)), Some(FlowOf(s))))
  {
  }

  /** How the session follows the answer: it keeps its method unless it is issued, and every move extends it. */
  lemma SessionFollows(cfg: Config, s: Slice, f: Frame)
    ensures var (after, answer) := FinishFrame(cfg, s, f);
            var x, now := s.session, f.answeredAt;
            var live := x.Some? && now < x.value.expiresAt;
            if answer.ToChallenge? && FlowOf(s).challenge.Some? then after.session == x
            else if !live then after.session == None
            else after.session == Some(
              match answer
              case StillScanning(_) => Session(now + cfg.ttlMs, Scanning, x.value.means)
              case ToChallenge(_, _) => Session(now + cfg.ttlMs, Challenging, x.value.means)
              case ToFallback(_) => Session(now + cfg.ttlMs, Fallback, x.value.means)
              case ToIssued(_, means) => Session(now + cfg.ttlMs, Issued, means))
  {
    hide FindMatch;
  }

  // ---------- the counts of a run ----------

  /** A live frame before any challenge whose match is unclear. */
  ghost predicate IsUnclear(cfg: Config, s: Slice, f: Frame) {
    IsLive(cfg, f) && FlowOf(s).challenge.None? && VerdictOf(cfg, f) == Unclear
  }

  ghost function SpoofsBefore(cfg: Config, fs: seq<Frame>, n: nat): (k: nat)
    requires n <= |fs|
  {
    if n == 0 then 0 else SpoofsBefore(cfg, fs, n - 1) + if LowLiveness(cfg, fs[n - 1]) then 1 else 0
  }

  ghost function UnclearBefore(cfg: Config, ss: seq<Slice>, fs: seq<Frame>, n: nat): (k: nat)
    requires n <= |fs| && n <= |ss|
  {
    if n == 0 then 0 else UnclearBefore(cfg, ss, fs, n - 1) + if IsUnclear(cfg, ss[n - 1], fs[n - 1]) then 1 else 0
  }

  lemma FrameCounts(cfg: Config, s: Slice, f: Frame)
    ensures var flow, flow' := FlowOf(s), FlowOf(FinishFrame(cfg, s, f).0);
            && flow'.spoof == flow.spoof + (if LowLiveness(cfg, f) then 1 else 0)
            && flow'.ambiguous == flow.ambiguous + (if IsUnclear(cfg, s, f) then 1 else 0)
  {
    hide FindMatch;
  }

  /** In every run, an open session has counted its faces of low liveness and its unclear ones. */
  lemma {:induction false} CountsAreExact(cfg: Config, ss: seq<Slice>, fs: seq<Frame>, rs: seq<Option<FrameResult>>,
                                          n: nat)
    requires IsRun(cfg, ss, fs, rs) && n <= |fs| && Open(ss[n])
    ensures FlowOf(ss[n]).spoof == SpoofsBefore(cfg, fs, n)
    ensures FlowOf(ss[n]).ambiguous == UnclearBefore(cfg, ss, fs, n)
  {
    if 0 < n {
      hide FinishFrame;
      var s, f := ss[n - 1], fs[n - 1];
      assert Process(cfg, s, f) == (ss[n], rs[n - 1]);
      ClosedStaysClosed(cfg, s, f);
      CountsAreExact(cfg, ss, fs, rs, n - 1);
      var begun := BeginFrame(cfg, s, f.startedAt).value;
      FrameCounts(cfg, begun, f);
      assert IsUnclear(cfg, begun, f) <==> IsUnclear(cfg, s, f);
    }
  }

  /** In every run, an answered frame gives up for spoofing exactly if it is the third of low liveness, and for
      ambiguity exactly if it is the tenth unclear one. */
  lemma GivesUpOnTheThirdAndTenth(cfg: Config, ss: seq<Slice>, fs: seq<Frame>, rs: seq<Option<FrameResult>>, i: nat)
    requires IsRun(cfg, ss, fs, rs) && i < |fs| && rs[i].Some?
    ensures rs[i].value == ToFallback("spoof_retry") <==> LowLiveness(cfg, fs[i]) && SpoofsBefore(cfg, fs, i) == 2
    ensures rs[i].value == ToFallback("ambiguous") <==>
              IsUnclear(cfg, ss[i], fs[i]) && UnclearBefore(cfg, ss, fs, i) == 9
  {
    hide FinishFrame;
    assert Process(cfg, ss[i], fs[i]) == (ss[i + 1], rs[i]);
    ClosedStaysClosed(cfg, ss[i], fs[i]);
    CountsAreExact(cfg, ss, fs, rs, i);
    FewCounted(cfg, ss, fs, rs, i);
    GivesUpIff(cfg, BeginFrame(cfg, ss[i], fs[i].startedAt).value, fs[i]);
  }

  /** An open session has not reached a bound. */
  lemma {:induction false} FewCounted(cfg: Config, ss: seq<Slice>, fs: seq<Frame>, rs: seq<Option<FrameResult>>, n: nat)
    requires IsRun(cfg, ss, fs, rs) && n <= |fs| && Open(ss[n])
    ensures FlowOf(ss[n]).spoof <= 2 && FlowOf(ss[n]).ambiguous <= 9
  {
    if 0 < n {
      hide FinishFrame;
      hide IsUnclear;
      var s, f := ss[n - 1], fs[n - 1];
      assert Process(cfg, s, f) == (ss[n], rs[n - 1]);
      ClosedStaysClosed(cfg, s, f);
      FewCounted(cfg, ss, fs, rs, n - 1);
      var begun := BeginFrame(cfg, s, f.startedAt).value;
      BoundsCloseIt(cfg, begun, f);
    }
  }

  lemma BoundsCloseIt(cfg: Config, s: Slice, f: Frame)
    requires FlowOf(s).spoof <= 2 && FlowOf(s).ambiguous <= 9
    ensures var after := FinishFrame(cfg, s, f).0;
            Open(after) ==> FlowOf(after).spoof <= 2 && FlowOf(after).ambiguous <= 9
  {
    hide FindMatch;
  }

  // ---------- the vote on its own ----------

  /** The candidates of a vote, one after the other. */
  function VoteAfter(ms: seq<Option<FaceMatch>>, threshold: real, margin: real): Vote {
    if ms == [] then Vote(None, 0)
    else CountVote(VoteAfter(ms[..|ms| - 1], threshold, margin), ms[|ms| - 1], threshold, margin)
  }

  /** A vote for `u`: a score at or above the threshold that leads by the margin or more. */
  predicate IsFor(m: Option<FaceMatch>, u: string, threshold: real, margin: real) {
    m.Some? && m.value.userId == u && threshold <= m.value.score && m.value.runnerUp + margin <= m.value.score
  }

  ghost predicate LastAreFor(ms: seq<Option<FaceMatch>>, u: string, threshold: real, margin: real, k: nat) {
    k <= |ms| && forall i :: |ms| - k <= i < |ms| ==> IsFor(ms[i], u, threshold, margin)
  }

  lemma {:induction false} VoteCountsTheLast(ms: seq<Option<FaceMatch>>, threshold: real, margin: real, u: string,
                                             k: nat)
    requires 0 < k
    ensures var v := VoteAfter(ms, threshold, margin);
            LastAreFor(ms, u, threshold, margin, k) <==> v.userId == Some(u) && k <= v.count
  {
    if ms != [] {
      var before, m := ms[..|ms| - 1], ms[|ms| - 1];
      VoteCountsTheLast(before, threshold, margin, u, k);
      if 1 < k { VoteCountsTheLast(before, threshold, margin, u, k - 1); }
      assert forall i :: 0 <= i < |before| ==> before[i] == ms[i];
    }
  }

  /** Somebody is elected exactly if the last three candidates are votes for them; a candidate that is no vote
      starts the count again. */
  lemma ElectsOnThreeInARow(ms: seq<Option<FaceMatch>>, threshold: real, margin: real, u: string)
    ensures Elected(VoteAfter(ms, threshold, margin)) == Some(u) <==> LastAreFor(ms, u, threshold, margin, 3)
  {
    VoteCountsTheLast(ms, threshold, margin, u, 3);
  }
}
