/** The face decision of one kiosk session, frame by frame. */
module FaceFlow {
  import opened Common
  import opened IdentitySessions
  import opened FaceMatcher

  const CHALLENGE_MS := 8_000
  const MAX_SPOOFS := 3
  const MAX_AMBIGUOUS := 10

  // ---------- the action challenge ----------

  datatype ChallengeKind = Blink | TurnLeft | TurnRight | Nod

  datatype Pose = Pose(yaw: real, pitch: real)

  datatype Signals = Signals(blinkLeft: Option<real>, blinkRight: Option<real>, pose: Option<Pose>)

  function OrZero(x: Option<real>): real {
    if x.Some? then x.value else 0.0
  }

  function Abs(x: real): real {
    if x < 0.0 then -x else x
  }

  function BlinkOf(s: Signals): real {
    var l, r := OrZero(s.blinkLeft), OrZero(s.blinkRight);
    if r < l then r else l
  }

  function YawOf(s: Signals): real {
    if s.pose.Some? then s.pose.value.yaw else 0.0
  }

  function PitchOf(s: Signals): real {
    if s.pose.Some? then s.pose.value.pitch else 0.0
  }

  /** The frame shows the demanded action. */
  predicate Acts(kind: ChallengeKind, s: Signals) {
    match kind
    case Blink => BlinkOf(s) > 0.5
    case TurnLeft => YawOf(s) < -15.0
    case TurnRight => YawOf(s) > 15.0
    case Nod => PitchOf(s) < -12.0
  }

  /** The frame shows the face back at rest. */
  predicate AtRest(kind: ChallengeKind, s: Signals) {
    match kind
    case Blink => BlinkOf(s) < 0.2
    case Nod => Abs(PitchOf(s)) < 5.0
    case _ => Abs(YawOf(s)) < 5.0
  }

  /** No single frame is both, so the way back is always a later frame. */
  lemma ActingIsNotResting(kind: ChallengeKind, s: Signals)
    ensures !(Acts(kind, s) && AtRest(kind, s))
  {
  }

  // ---------- frames ----------

  datatype Config = Config(threshold: real, margin: real, livenessThreshold: real, challengeRequired: bool, ttlMs: nat,
                           sqrt: real -> real)

  datatype FaceInput = FaceInput(pass: bool, firstFail: Option<string>, liveness: Option<real>,
                                 embedding: Option<Vector>,
                                 signals: Signals)

  /** One frame as the sidecar answered it: the first face if any, the roster read at that moment, and
      the random choice of an action. */
  datatype Frame = Frame(face: Option<FaceInput>, roster: Roster, draw: ChallengeKind, startedAt: int, answeredAt: int)

  datatype Challenge = Challenge(kind: ChallengeKind, deadline: int, moved: bool, userId: string)

  datatype Flow = Flow(vote: Vote, spoof: nat, ambiguous: nat, challenge: Option<Challenge>)

  const NEW_FLOW := Flow(Vote(None, 0), 0, 0, None)

  /** What one session owns: its kiosk session and its flow. */
  datatype Slice = Slice(session: Option<Session>, flow: Option<Flow>)

  datatype FrameResult =
    | StillScanning(hint: Option<string>)
    | ToChallenge(kind: ChallengeKind, deadline: int)
    | ToFallback(reason: string)
    | ToIssued(userId: string, means: Means)

  /** The part of `process` before the sidecar is asked; `None` if the session is gone or closed. */
  function BeginFrame(cfg: Config, s: Slice, now: int): (r: Option<Slice>) {
    var live := Live(s.session, now);
    if live.None? || live.value.state.Issued? || live.value.state.Fallback? then None
    else Some(Slice(Touched(s.session, cfg.ttlMs, now), Some(if s.flow.Some? then s.flow.value else NEW_FLOW)))
  }

  function Leave(cfg: Config, s: Slice, flow: Flow, state: SessionState, means: Means, now: int): (r: Slice) {
    Slice(Moved(s.session, cfg.ttlMs, state, means, now), Some(flow))
  }

  function ScanOn(cfg: Config, s: Slice, flow: Flow, hint: Option<string>, now: int): (Slice, FrameResult) {
    (Leave(cfg, s, flow, Scanning, NoMeans, now), StillScanning(hint))
  }

  function GiveUp(cfg: Config, s: Slice, flow: Flow, reason: string, now: int): (Slice, FrameResult) {
    (Leave(cfg, s, flow, Fallback, NoMeans, now), ToFallback(reason))
  }

  function IssueTo(cfg: Config, s: Slice, flow: Flow, userId: string, means: Means, now: int): (Slice, FrameResult) {
    (Leave(cfg, s, flow, Issued, means, now), ToIssued(userId, means))
  }

  /** The face of a frame that passes the quality and liveness checks and has an embedding. */
  predicate IsLive(cfg: Config, f: Frame) {
    && f.face.Some? && f.face.value.pass
    && OrZero(f.face.value.liveness) >= cfg.livenessThreshold
    && f.face.value.embedding.Some?
  }

  function MatchOf(cfg: Config, f: Frame): (m: Option<FaceMatch>)
    requires IsLive(cfg, f)
  {
    FindMatch(cfg.sqrt, f.face.value.embedding.value, f.roster)
  }

  function TopUser(cfg: Config, f: Frame): (u: Option<string>)
    requires IsLive(cfg, f)
  {
    var m := MatchOf(cfg, f);
    if m.Some? then Some(m.value.userId) else None
  }

  /** The part of `process` after the sidecar answered. */
  function FinishFrame(cfg: Config, s: Slice, f: Frame): (r: (Slice, FrameResult)) {
    var flow, now := if s.flow.Some? then s.flow.value else NEW_FLOW, f.answeredAt;
    if f.face.None? then ScanOn(cfg, s, flow, Some("no_face"), now)
    else if !f.face.value.pass then
      var hint := if f.face.value.firstFail.Some? then f.face.value.firstFail.value else "hold_still";
      ScanOn(cfg, s, flow, Some(hint), now)
    else if OrZero(f.face.value.liveness) < cfg.livenessThreshold then
      var flow' := flow.(spoof := flow.spoof + 1);
      if flow'.spoof >= MAX_SPOOFS then GiveUp(cfg, s, flow', "spoof_retry", now)
      else ScanOn(cfg, s, flow', Some("spoof_retry"), now)
    else if f.face.value.embedding.None? then ScanOn(cfg, s, flow, Some("hold_still"), now)
    else if flow.challenge.Some? then FinishChallenge(cfg, s, flow, f)
    else FinishScan(cfg, s, flow, f)
  }

  function FinishScan(cfg: Config, s: Slice, flow: Flow, f: Frame): (r: (Slice, FrameResult))
    requires IsLive(cfg, f)
  {
    var m, now := MatchOf(cfg, f), f.answeredAt;
    if m.None? || m.value.score < cfg.threshold then ScanOn(cfg, s, flow, Some("no_match"), now)
    else if m.value.score - m.value.runnerUp < cfg.margin then
      var flow' := flow.(ambiguous := flow.ambiguous + 1);
      if flow'.ambiguous >= MAX_AMBIGUOUS then GiveUp(cfg, s, flow', "ambiguous", now)
      else ScanOn(cfg, s, flow', Some("ambiguous"), now)
    else
      var vote := CountVote(flow.vote, m, cfg.threshold, cfg.margin);
      var voted := flow.(vote := vote);
      if Elected(vote).None? then ScanOn(cfg, s, voted, None, now)
      else if !cfg.challengeRequired then IssueTo(cfg, s, voted, Elected(vote).value, FacePassive, now)
      else
        var c := Challenge(f.draw, now + CHALLENGE_MS, false, Elected(vote).value);
        (Leave(cfg, s, voted.(challenge := Some(c)), Challenging, NoMeans, now), ToChallenge(c.kind, c.deadline))
  }

  function FinishChallenge(cfg: Config, s: Slice, flow: Flow, f: Frame): (r: (Slice, FrameResult))
    requires IsLive(cfg, f) && flow.challenge.Some?
  {
    var c, signals, now := flow.challenge.value, f.face.value.signals, f.answeredAt;
    if now > c.deadline || TopUser(cfg, f) != Some(c.userId) then GiveUp(cfg, s, flow, "challenge_failed", now)
    else
      var c' := c.(moved := c.moved || Acts(c.kind, signals));
      var flow' := flow.(challenge := Some(c'));
      if c'.moved && AtRest(c.kind, signals) then IssueTo(cfg, s, flow', c.userId, Face, now)
      else (Slice(s.session, Some(flow')), ToChallenge(c.kind, c.deadline))
  }

  /** One frame, with no other frame of the session in between. */
  function Process(cfg: Config, s: Slice, f: Frame): (r: (Slice, Option<FrameResult>)) {
    var begun := BeginFrame(cfg, s, f.startedAt);
    if begun.None? then (s.(session := Live(s.session, f.startedAt)), None)
    else
      var r := FinishFrame(cfg, begun.value, f);
      (r.0, Some(r.1))
  }

  /** The flow object: one flow per session, and the kiosk sessions it moves. */
  class FaceVerificationFlow {
    const cfg: Config
    const sessions: IdentitySessionStore
    var flows: map<string, Flow>

    constructor (cfg: Config, sessions: IdentitySessionStore)
      requires cfg.ttlMs == sessions.ttlMs
      ensures this.cfg == cfg && this.sessions == sessions && flows == map[]
    {
      this.cfg, this.sessions := cfg, sessions;
      flows := map[];
    }

    ghost function SliceOf(id: string): Slice
      reads this, sessions
    {
      Slice(Lookup(sessions.sessions, id), Lookup(flows, id))
    }

    /** The part of `process` before the sidecar is asked. */
    method Begin(id: string, now: int) returns (ok: bool)
      requires cfg.ttlMs == sessions.ttlMs
      modifies this, sessions
      ensures var r := BeginFrame(cfg, old(SliceOf(id)), now);
              && ok == r.Some?
              && SliceOf(id) == (if ok then r.value
                                 else old(SliceOf(id)).(session := Live(old(SliceOf(id)).session, now)))
      ensures forall k :: k != id ==> SliceOf(k) == old(SliceOf(k))
    {
      var session := sessions.Get(id, now);
      if session.None? || session.value.state == Issued || session.value.state == Fallback { return false; }
      var touched := sessions.Touch(id, now);
      if id !in flows { flows := flows[id := NEW_FLOW]; }
      ok := true;
    }

    method ScanOnWith(id: string, hint: Option<string>, now: int) returns (r: FrameResult)
      requires cfg.ttlMs == sessions.ttlMs && id in flows
      modifies sessions
      ensures (SliceOf(id), r) == ScanOn(cfg, old(SliceOf(id)), flows[id], hint, now)
      ensures forall k :: k != id ==> SliceOf(k) == old(SliceOf(k))
    {
      var moved := sessions.Transition(id, Scanning, NoMeans, now);
      r := StillScanning(hint);
    }

    method GiveUpWith(id: string, reason: string, now: int) returns (r: FrameResult)
      requires cfg.ttlMs == sessions.ttlMs && id in flows
      modifies sessions
      ensures (SliceOf(id), r) == GiveUp(cfg, old(SliceOf(id)), flows[id], reason, now)
      ensures forall k :: k != id ==> SliceOf(k) == old(SliceOf(k))
    {
      var moved := sessions.Transition(id, Fallback, NoMeans, now);
      r := ToFallback(reason);
    }

    method IssueWith(id: string, userId: string, means: Means, now: int) returns (r: FrameResult)
      requires cfg.ttlMs == sessions.ttlMs && id in flows && !means.NoMeans?
      modifies sessions
      ensures (SliceOf(id), r) == IssueTo(cfg, old(SliceOf(id)), flows[id], userId, means, now)
      ensures forall k :: k != id ==> SliceOf(k) == old(SliceOf(k))
    {
      var moved := sessions.Transition(id, Issued, means, now);
      r := ToIssued(userId, means);
    }

    /** The part of `process` after the sidecar answered. */
    method Finish(id: string, f: Frame) returns (r: FrameResult)
      requires cfg.ttlMs == sessions.ttlMs && id in flows && IsSquareRoot(cfg.sqrt)
      modifies this, sessions
      ensures (SliceOf(id), r) == FinishFrame(cfg, old(SliceOf(id)), f)
      ensures forall k :: k != id ==> SliceOf(k) == old(SliceOf(k))
    {
      hide FindMatch;
      var flow, now := flows[id], f.answeredAt;
      if f.face.None? {
        r := ScanOnWith(id, Some("no_face"), now);
        return;
      }
      var face := f.face.value;
      if !face.pass {
        r := ScanOnWith(id, Some(if face.firstFail.Some? then face.firstFail.value else "hold_still"), now);
        return;
      }
      if OrZero(face.liveness) < cfg.livenessThreshold {
        flows := flows[id := flow.(spoof := flow.spoof + 1)];
        if flows[id].spoof >= MAX_SPOOFS {
          r := GiveUpWith(id, "spoof_retry", now);
        } else {
          r := ScanOnWith(id, Some("spoof_retry"), now);
        }
        return;
      }
      if face.embedding.None? {
        r := ScanOnWith(id, Some("hold_still"), now);
        return;
      }
      var best := FindFaceMatch(cfg.sqrt, face.embedding.value, f.roster);
      if flow.challenge.Some? {
        r := Challenged(id, f, if best.Some? then Some(best.value.userId) else None);
      } else {
        r := Voted(id, f, best);
      }
    }

    method Challenged(id: string, f: Frame, userId: Option<string>) returns (r: FrameResult)
      requires cfg.ttlMs == sessions.ttlMs && id in flows && flows[id].challenge.Some?
      requires IsLive(cfg, f) && userId == TopUser(cfg, f)
      modifies this, sessions
      ensures (SliceOf(id), r) == FinishChallenge(cfg, old(SliceOf(id)), old(flows[id]), f)
      ensures forall k :: k != id ==> SliceOf(k) == old(SliceOf(k))
    {
      hide FindMatch;
      var flow, now, signals := flows[id], f.answeredAt, f.face.value.signals;
      var c := flow.challenge.value;
      if now > c.deadline || userId != Some(c.userId) {
        r := GiveUpWith(id, "challenge_failed", now);
        return;
      }
      var moved := c.moved || Acts(c.kind, signals);
      flows := flows[id := flow.(challenge := Some(c.(moved := moved)))];
      if moved && AtRest(c.kind, signals) {
        r := IssueWith(id, c.userId, Face, now);
      } else {
        r := ToChallenge(c.kind, c.deadline);
      }
    }

    method Voted(id: string, f: Frame, best: Option<FaceMatch>) returns (r: FrameResult)
      requires cfg.ttlMs == sessions.ttlMs && id in flows
      requires IsLive(cfg, f) && best == MatchOf(cfg, f)
      modifies this, sessions
      ensures (SliceOf(id), r) == FinishScan(cfg, old(SliceOf(id)), old(flows[id]), f)
      ensures forall k :: k != id ==> SliceOf(k) == old(SliceOf(k))
    {
      hide FindMatch;
      var flow, now := flows[id], f.answeredAt;
      if best.None? || best.value.score < cfg.threshold {
        r := ScanOnWith(id, Some("no_match"), now);
        return;
      }
      if best.value.score - best.value.runnerUp < cfg.margin {
        flows := flows[id := flow.(ambiguous := flow.ambiguous + 1)];
        if flows[id].ambiguous >= MAX_AMBIGUOUS {
          r := GiveUpWith(id, "ambiguous", now);
        } else {
          r := ScanOnWith(id, Some("ambiguous"), now);
        }
        return;
      }
      var vote := CountVote(flow.vote, best, cfg.threshold, cfg.margin);
      flows := flows[id := flow.(vote := vote)];
      var elected := Elected(vote);
      if elected.None? {
        r := ScanOnWith(id, None, now);
      } else if !cfg.challengeRequired {
        r := IssueWith(id, elected.value, FacePassive, now);
      } else {
        var c := Challenge(f.draw, now + CHALLENGE_MS, false, elected.value);
        flows := flows[id := flows[id].(challenge := Some(c))];
        var moved := sessions.Transition(id, Challenging, NoMeans, now);
        r := ToChallenge(c.kind, c.deadline);
      }
    }
  }
}
