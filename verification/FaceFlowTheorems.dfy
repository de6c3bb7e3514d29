/** What an issued face decision means, over any sequence of frames of one session. */
module FaceFlowTheorems {
  import opened Common
  import opened IdentitySessions
  import opened FaceMatcher
  import opened FaceFlow

  /** The frames of a fresh session, one after the other; `rs[i]` answers `fs[i]` in state `ss[i]`. */
  ghost predicate IsRun(cfg: Config, ss: seq<Slice>, fs: seq<Frame>, rs: seq<Option<FrameResult>>) {
    && |ss| == |fs| + 1 == |rs| + 1
    && ss[0].session.Some? && ss[0].session.value.state.Idle? && ss[0].flow.None?
    && (forall i :: 0 <= i < |fs| ==> Process(cfg, ss[i], fs[i]) == (ss[i + 1], rs[i]))
  }

  /** The frame takes part in the vote: its best score reaches the threshold and leads by the margin. */
  ghost predicate VotesIn(cfg: Config, f: Frame) {
    && IsLive(cfg, f) && MatchOf(cfg, f).Some?
    && var m := MatchOf(cfg, f).value; m.score >= cfg.threshold && m.score - m.runnerUp >= cfg.margin
  }

  /** The demanded movement, read off the signals of the sidecar: for a blink both eyes, angles in degrees. */
  predicate ShowsAction(kind: ChallengeKind, s: Signals) {
    match kind
    case Blink => s.blinkLeft.Some? && s.blinkRight.Some? && s.blinkLeft.value > 0.5 && s.blinkRight.value > 0.5
    case TurnLeft => s.pose.Some? && s.pose.value.yaw < -15.0
    case TurnRight => s.pose.Some? && s.pose.value.yaw > 15.0
    case Nod => s.pose.Some? && s.pose.value.pitch < -12.0
  }

  /** The face back at rest; a signal that is missing counts as rest. */
  predicate ShowsRest(kind: ChallengeKind, s: Signals) {
    match kind
    case Blink => s.blinkLeft.None? || s.blinkRight.None? || s.blinkLeft.value < 0.2 || s.blinkRight.value < 0.2
    case Nod => s.pose.None? || -5.0 < s.pose.value.pitch < 5.0
    case _ => s.pose.None? || -5.0 < s.pose.value.yaw < 5.0
  }

  lemma SignalsIff(kind: ChallengeKind, s: Signals)
    ensures Acts(kind, s) <==> ShowsAction(kind, s)
    ensures AtRest(kind, s) <==> ShowsRest(kind, s)
    ensures !(ShowsAction(kind, s) && ShowsRest(kind, s))
  {
  }

  /** The last frame before position `n` that takes part in the vote, or -1. */
  ghost function LastVote(cfg: Config, fs: seq<Frame>, n: nat): (i: int)
    requires n <= |fs|
    ensures -1 <= i < n
    ensures 0 <= i ==> VotesIn(cfg, fs[i])
    ensures forall j :: i < j < n ==> !VotesIn(cfg, fs[j])
  {
    if n == 0 then -1 else if VotesIn(cfg, fs[n - 1]) then n - 1 else LastVote(cfg, fs, n - 1)
  }

  /** The last `k` frames before position `n` that take part in the vote are all for `u`. */
  ghost predicate VotesFor(cfg: Config, fs: seq<Frame>, n: nat, u: string, k: nat)
    requires n <= |fs|
  {
    k == 0 || (var i := LastVote(cfg, fs, n);
               0 <= i && TopUser(cfg, fs[i]) == Some(u) && VotesFor(cfg, fs, i, u, k - 1))
  }

  // ---------- what the flow remembers ----------

  ghost predicate Open(s: Slice) {
    s.session.Some? && !s.session.value.state.Issued? && !s.session.value.state.Fallback?
  }

  function FlowOf(s: Slice): Flow {
    if s.flow.Some? then s.flow.value else NEW_FLOW
  }

  ghost predicate VoteTracks(cfg: Config, fs: seq<Frame>, n: nat, v: Vote)
    requires n <= |fs|
  {
    && (0 < v.count ==> v.userId.Some? && VotesFor(cfg, fs, n, v.userId.value, v.count))
    && (forall u, k: nat :: NoMoreVotes(cfg, fs, n, u, k, v))
  }

  ghost predicate NoMoreVotes(cfg: Config, fs: seq<Frame>, n: nat, u: string, k: nat, v: Vote)
    requires n <= |fs|
  {
    0 < k && VotesFor(cfg, fs, n, u, k) ==> v.userId == Some(u) && k <= v.count
  }

  /** Frame `c` opened the challenge for `u`, as the third of the last three votes. */
  ghost predicate OpenedBy(cfg: Config, fs: seq<Frame>, c: nat, u: string) {
    c < |fs| && VotesIn(cfg, fs[c]) && VotesFor(cfg, fs, c + 1, u, 3)
  }

  /** Every live frame from `c` on, before `n`, shows `u` first and is in time. */
  ghost predicate StaysWith(cfg: Config, fs: seq<Frame>, c: nat, n: nat, u: string) {
    c < n <= |fs| && forall j :: c < j < n && IsLive(cfg, fs[j]) ==>
      TopUser(cfg, fs[j]) == Some(u) && fs[j].answeredAt <= fs[c].answeredAt + 8_000
  }

  ghost predicate ActsAt(cfg: Config, fs: seq<Frame>, c: nat, d: nat) {
    c < d < |fs| && IsLive(cfg, fs[d]) && ShowsAction(fs[c].draw, fs[d].face.value.signals)
  }

  ghost predicate ChallengeFrom(cfg: Config, fs: seq<Frame>, n: nat, ch: Challenge, c: nat) {
    && OpenedBy(cfg, fs, c, ch.userId) && StaysWith(cfg, fs, c, n, ch.userId)
    && ch.kind == fs[c].draw && ch.deadline == fs[c].answeredAt + 8_000
    && (ch.moved ==> exists d: nat :: d < n && ActsAt(cfg, fs, c, d))
  }

  ghost predicate Tracks(cfg: Config, fs: seq<Frame>, n: nat, flow: Flow)
    requires n <= |fs|
  {
    if flow.challenge.None? then VoteTracks(cfg, fs, n, flow.vote) && flow.vote.count < 3
    else exists c: nat :: ChallengeFrom(cfg, fs, n, flow.challenge.value, c)
  }

  // ---------- one frame ----------

  lemma VotesPassOver(cfg: Config, fs: seq<Frame>, n: nat, v: Vote)
    requires n < |fs| && VoteTracks(cfg, fs, n, v) && !VotesIn(cfg, fs[n])
    ensures VoteTracks(cfg, fs, n + 1, v)
  {
    assert LastVote(cfg, fs, n + 1) == LastVote(cfg, fs, n);
    var m := n + 1;
    forall u, k: nat ensures NoMoreVotes(cfg, fs, m, u, k, v) {
      assert NoMoreVotes(cfg, fs, n, u, k, v);
    }
  }

  lemma VoteIsCounted(cfg: Config, fs: seq<Frame>, n: nat, v: Vote)
    requires n < |fs| && VoteTracks(cfg, fs, n, v) && VotesIn(cfg, fs[n])
    ensures VoteTracks(cfg, fs, n + 1, CountVote(v, MatchOf(cfg, fs[n]), cfg.threshold, cfg.margin))
  {
    assert LastVote(cfg, fs, n + 1) == n;
    var v' := CountVote(v, MatchOf(cfg, fs[n]), cfg.threshold, cfg.margin);
    hide FindMatch;
    var m: nat := n + 1;
    assert VotesFor(cfg, fs, m, v'.userId.value, v'.count);
    forall u, k: nat ensures NoMoreVotes(cfg, fs, m, u, k, v') {
      if 0 < k && VotesFor(cfg, fs, m, u, k) {
        assert TopUser(cfg, fs[n]) == Some(u) && VotesFor(cfg, fs, n, u, k - 1);
        assert NoMoreVotes(cfg, fs, n, u, k - 1, v);
      }
    }
  }

  lemma FewerVotes(cfg: Config, fs: seq<Frame>, n: nat, u: string, k: nat)
    requires n <= |fs| && VotesFor(cfg, fs, n, u, k) && 3 <= k
    ensures VotesFor(cfg, fs, n, u, 3)
  {
    var a := LastVote(cfg, fs, n);
    var b := LastVote(cfg, fs, a);
    assert VotesFor(cfg, fs, a, u, k - 1) && VotesFor(cfg, fs, b, u, k - 2);
    var c := LastVote(cfg, fs, b);
    assert VotesFor(cfg, fs, c, u, 0) && VotesFor(cfg, fs, b, u, 1) && VotesFor(cfg, fs, a, u, 2);
  }

  /** A scanning frame that leaves the session open. */
  lemma ScanTracks(cfg: Config, fs: seq<Frame>, n: nat, s: Slice)
    requires n < |fs| && Tracks(cfg, fs, n, FlowOf(s)) && FlowOf(s).challenge.None? && IsLive(cfg, fs[n])
    ensures var r := FinishScan(cfg, s, FlowOf(s), fs[n]);
            && r.0.flow.Some?
            && (Open(r.0) ==> Tracks(cfg, fs, n + 1, r.0.flow.value))
            && (r.1.ToIssued? ==>
                  !cfg.challengeRequired && r.1.means == FacePassive && OpenedBy(cfg, fs, n, r.1.userId))
            && (r.1.ToIssued? || r.1.ToFallback? ==> !Open(r.0))
            && (r.1.ToIssued? || r.1.ToChallenge? <==> exists u :: OpenedBy(cfg, fs, n, u))
  {
    hide FindMatch;
    var flow := FlowOf(s);
    if VotesIn(cfg, fs[n]) {
      VoteIsCounted(cfg, fs, n, flow.vote);
      var vote := CountVote(flow.vote, MatchOf(cfg, fs[n]), cfg.threshold, cfg.margin);
      forall u | OpenedBy(cfg, fs, n, u) ensures 3 <= vote.count {
        assert NoMoreVotes(cfg, fs, n + 1, u, 3, vote);
      }
      if 3 <= vote.count {
        FewerVotes(cfg, fs, n + 1, vote.userId.value, vote.count);
        assert OpenedBy(cfg, fs, n, vote.userId.value);
        if cfg.challengeRequired {
          var c := Challenge(fs[n].draw, fs[n].answeredAt + CHALLENGE_MS, false, vote.userId.value);
          assert ChallengeFrom(cfg, fs, n + 1, c, n);
        }
      }
    } else {
      VotesPassOver(cfg, fs, n, flow.vote);
    }
  }

  /** What a positive face decision at frame `i` is based on. */
  ghost predicate Evidence(cfg: Config, fs: seq<Frame>, i: nat, u: string, c: nat, d: nat) {
    && c < d < i < |fs|
    && OpenedBy(cfg, fs, c, u) && StaysWith(cfg, fs, c, i + 1, u)
    && ActsAt(cfg, fs, c, d) && IsLive(cfg, fs[i]) && ShowsRest(fs[c].draw, fs[i].face.value.signals)
  }

  lemma ChallengeTracks(cfg: Config, fs: seq<Frame>, n: nat, s: Slice)
    requires n < |fs| && Tracks(cfg, fs, n, FlowOf(s)) && FlowOf(s).challenge.Some? && IsLive(cfg, fs[n])
    ensures var r := FinishChallenge(cfg, s, FlowOf(s), fs[n]);
            && r.0.flow.Some?
            && (Open(r.0) ==> Tracks(cfg, fs, n + 1, r.0.flow.value))
            && (r.1.ToIssued? ==> r.1.means == Face && exists c: nat, d: nat :: Evidence(cfg, fs, n, r.1.userId, c, d))
            && (r.1.ToIssued? || r.1.ToFallback? ==> !Open(r.0))
  {
    hide FindMatch;
    hide OpenedBy;
    var ch := FlowOf(s).challenge.value;
    var c: nat :| ChallengeFrom(cfg, fs, n, ch, c);
    var r := FinishChallenge(cfg, s, FlowOf(s), fs[n]);
    SignalsIff(ch.kind, fs[n].face.value.signals);
    hide ShowsAction;
    hide ShowsRest;
    if !r.1.ToFallback? {
      assert StaysWith(cfg, fs, c, n + 1, ch.userId);
      var ch' := r.0.flow.value.challenge.value;
      if ShowsAction(ch.kind, fs[n].face.value.signals) { assert ActsAt(cfg, fs, c, n); }
      assert ChallengeFrom(cfg, fs, n + 1, ch', c);
      if r.1.ToIssued? {
        var d: nat :| d < n && ActsAt(cfg, fs, c, d);
        assert Evidence(cfg, fs, n, ch.userId, c, d);
      }
    }
  }

  /** A frame that does not reach the vote or the challenge changes neither. */
  lemma OtherFramesTrack(cfg: Config, fs: seq<Frame>, n: nat, flow: Flow, flow': Flow)
    requires n < |fs| && Tracks(cfg, fs, n, flow) && !IsLive(cfg, fs[n])
    requires flow'.vote == flow.vote && flow'.challenge == flow.challenge
    ensures Tracks(cfg, fs, n + 1, flow')
  {
    if flow.challenge.None? {
      VotesPassOver(cfg, fs, n, flow.vote);
    } else {
      hide OpenedBy;
      var c: nat :| ChallengeFrom(cfg, fs, n, flow.challenge.value, c);
      assert StaysWith(cfg, fs, c, n + 1, flow.challenge.value.userId);
      assert ChallengeFrom(cfg, fs, n + 1, flow.challenge.value, c);
    }
  }

  lemma FrameTracks(cfg: Config, fs: seq<Frame>, n: nat, s: Slice)
    requires n < |fs| && Tracks(cfg, fs, n, FlowOf(s))
    ensures var r := FinishFrame(cfg, s, fs[n]);
            && (Open(r.0) ==> Tracks(cfg, fs, n + 1, FlowOf(r.0)))
            && (r.1.ToIssued? || r.1.ToFallback? ==> !Open(r.0))
            && (r.1.ToIssued? ==>
                  || (r.1.means == Face && exists c: nat, d: nat :: Evidence(cfg, fs, n, r.1.userId, c, d))
                  || (r.1.means == FacePassive && !cfg.challengeRequired && OpenedBy(cfg, fs, n, r.1.userId)))
  {
    hide Tracks;
    if !IsLive(cfg, fs[n]) {
      OtherFramesTrack(cfg, fs, n, FlowOf(s), FlowOf(FinishFrame(cfg, s, fs[n]).0));
    } else if FlowOf(s).challenge.None? {
      ScanTracks(cfg, fs, n, s);
    } else {
      ChallengeTracks(cfg, fs, n, s);
    }
  }

  // ---------- whole runs ----------

  lemma {:induction false} TracksThroughout(cfg: Config, ss: seq<Slice>, fs: seq<Frame>, rs: seq<Option<FrameResult>>,
                                            n: nat)
    requires IsRun(cfg, ss, fs, rs) && n <= |fs| && Open(ss[n])
    ensures Tracks(cfg, fs, n, FlowOf(ss[n]))
  {
    if 0 < n {
      hide FinishFrame;
      hide Tracks;
      var s, f := ss[n - 1], fs[n - 1];
      assert Process(cfg, s, f) == (ss[n], rs[n - 1]);
      ClosedStaysClosed(cfg, s, f);
      TracksThroughout(cfg, ss, fs, rs, n - 1);
      FrameTracks(cfg, fs, n - 1, BeginFrame(cfg, s, f.startedAt).value);
    }
  }

  lemma ClosedStaysClosed(cfg: Config, s: Slice, f: Frame)
    ensures !Open(s) ==> !Open(Process(cfg, s, f).0) && Process(cfg, s, f).1.None?
    ensures Open(Process(cfg, s, f).0) ==> Open(s) && BeginFrame(cfg, s, f.startedAt).Some?
    ensures BeginFrame(cfg, s, f.startedAt).Some? ==>
              Open(s) && FlowOf(BeginFrame(cfg, s, f.startedAt).value) == FlowOf(s)
  {
    hide FinishFrame;
  }

  /** While no challenge is open, a frame is answered with a challenge, or with an issue where none is
      required, exactly if it completes three votes in a row for one person. */
  lemma ThirdVoteDecides(cfg: Config, ss: seq<Slice>, fs: seq<Frame>, rs: seq<Option<FrameResult>>, i: nat)
    requires IsRun(cfg, ss, fs, rs) && i < |fs| && rs[i].Some? && FlowOf(ss[i]).challenge.None?
    ensures rs[i].value.ToIssued? || rs[i].value.ToChallenge? <==> exists u :: OpenedBy(cfg, fs, i, u)
  {
    var s, f := ss[i], fs[i];
    assert Process(cfg, s, f) == (ss[i + 1], rs[i]);
    ClosedStaysClosed(cfg, s, f);
    TracksThroughout(cfg, ss, fs, rs, i);
    if IsLive(cfg, f) {
      ScanTracks(cfg, fs, i, BeginFrame(cfg, s, f.startedAt).value);
    }
  }

  lemma IssuedFrame(cfg: Config, ss: seq<Slice>, fs: seq<Frame>, rs: seq<Option<FrameResult>>, i: nat)
    requires IsRun(cfg, ss, fs, rs) && i < |fs| && rs[i].Some? && (rs[i].value.ToIssued? || rs[i].value.ToFallback?)
    ensures !Open(ss[i + 1])
    ensures rs[i].value.ToIssued? ==>
              || (rs[i].value.means == Face && exists c: nat, d: nat :: Evidence(cfg, fs, i, rs[i].value.userId, c, d))
              || (rs[i].value.means == FacePassive && !cfg.challengeRequired
                  && OpenedBy(cfg, fs, i, rs[i].value.userId))
  {
    hide FinishFrame;
    hide Tracks;
    hide Evidence;
    hide OpenedBy;
    var s, f := ss[i], fs[i];
    assert Process(cfg, s, f) == (ss[i + 1], rs[i]);
    ClosedStaysClosed(cfg, s, f);
    TracksThroughout(cfg, ss, fs, rs, i);
    FrameTracks(cfg, fs, i, BeginFrame(cfg, s, f.startedAt).value);
  }

  /** An active decision for `u`: the last three votes before the challenge were for `u`; from then on
      every live frame showed `u` first, in time; one showed the action and a strictly later one, the
      deciding frame, the face at rest. */
  lemma FaceDecisionHasEvidence(cfg: Config, ss: seq<Slice>, fs: seq<Frame>, rs: seq<Option<FrameResult>>, i: nat,
                                u: string)
    requires IsRun(cfg, ss, fs, rs) && i < |fs| && rs[i] == Some(ToIssued(u, Face))
    ensures exists c: nat, d: nat :: Evidence(cfg, fs, i, u, c, d)
  {
    IssuedFrame(cfg, ss, fs, rs, i);
  }

  /** A passive decision for `u`: the deciding frame is the third of the last three votes, all for `u`. */
  lemma PassiveDecisionHasThreeVotes(cfg: Config, ss: seq<Slice>, fs: seq<Frame>, rs: seq<Option<FrameResult>>, i: nat,
                                     u: string)
    requires IsRun(cfg, ss, fs, rs) && i < |fs| && rs[i] == Some(ToIssued(u, FacePassive))
    ensures !cfg.challengeRequired && OpenedBy(cfg, fs, i, u)
  {
    IssuedFrame(cfg, ss, fs, rs, i);
  }

  lemma ThreeLiveFrames(cfg: Config, fs: seq<Frame>, c: nat, u: string)
    requires OpenedBy(cfg, fs, c, u)
    ensures exists a: nat, b: nat :: a < b < c && LiveFor(cfg, fs, a, u) && LiveFor(cfg, fs, b, u)
    ensures LiveFor(cfg, fs, c, u)
  {
    assert LastVote(cfg, fs, c + 1) == c;
    var b := LastVote(cfg, fs, c);
    assert VotesFor(cfg, fs, c, u, 2);
    assert VotesFor(cfg, fs, b, u, 1);
    var a := LastVote(cfg, fs, b);
    assert LiveFor(cfg, fs, a, u) && LiveFor(cfg, fs, b, u);
  }

  ghost predicate LiveFor(cfg: Config, fs: seq<Frame>, i: nat, u: string) {
    i < |fs| && IsLive(cfg, fs[i]) && TopUser(cfg, fs[i]) == Some(u)
  }

  lemma EvidenceFrames(cfg: Config, fs: seq<Frame>, i: nat, u: string, c: nat, d: nat)
    requires Evidence(cfg, fs, i, u, c, d)
    ensures c < d < i && OpenedBy(cfg, fs, c, u) && LiveFor(cfg, fs, d, u) && LiveFor(cfg, fs, i, u)
  {
    hide OpenedBy;
  }

  /** An active decision rests on at least five different live frames of the same person. */
  lemma FiveLiveFrames(cfg: Config, ss: seq<Slice>, fs: seq<Frame>, rs: seq<Option<FrameResult>>, i: nat, u: string)
    requires IsRun(cfg, ss, fs, rs) && i < |fs| && rs[i] == Some(ToIssued(u, Face))
    ensures exists a: nat, b: nat, c: nat, d: nat :: a < b < c < d < i
              && LiveFor(cfg, fs, a, u) && LiveFor(cfg, fs, b, u) && LiveFor(cfg, fs, c, u)
              && LiveFor(cfg, fs, d, u) && LiveFor(cfg, fs, i, u)
  {
    hide *;
    FaceDecisionHasEvidence(cfg, ss, fs, rs, i, u);
    var c: nat, d: nat :| Evidence(cfg, fs, i, u, c, d);
    EvidenceFrames(cfg, fs, i, u, c, d);
    ThreeLiveFrames(cfg, fs, c, u);
  }

  /** A session decides at most once: after an issue or a fallback every later frame is refused. */
  lemma {:induction false} DecidesOnce(cfg: Config, ss: seq<Slice>, fs: seq<Frame>, rs: seq<Option<FrameResult>>,
                                       i: nat, j: nat)
    requires IsRun(cfg, ss, fs, rs) && i < j < |fs|
    requires rs[i].Some? && (rs[i].value.ToIssued? || rs[i].value.ToFallback?)
    ensures rs[j].None? && !Open(ss[j])
    decreases j
  {
    if j == i + 1 {
      IssuedFrame(cfg, ss, fs, rs, i);
    } else {
      DecidesOnce(cfg, ss, fs, rs, i, j - 1);
      assert Process(cfg, ss[j - 1], fs[j - 1]) == (ss[j], rs[j - 1]);
      ClosedStaysClosed(cfg, ss[j - 1], fs[j - 1]);
    }
    assert Process(cfg, ss[j], fs[j]) == (ss[j + 1], rs[j]);
    ClosedStaysClosed(cfg, ss[j], fs[j]);
  }

  // ---------- a frame in flight while its session is issued elsewhere ----------

  /** The frame carries a challenge on: one is open, the answer is in time and shows its person first. */
  ghost predicate CarriesOn(cfg: Config, flow: Flow, f: Frame) {
    && IsLive(cfg, f) && flow.challenge.Some?
    && f.answeredAt <= flow.challenge.value.deadline && TopUser(cfg, f) == Some(flow.challenge.value.userId)
  }

  /** The frame casts the third vote in a row where no challenge is required. */
  ghost predicate CastsTheDecidingVote(cfg: Config, flow: Flow, f: Frame) {
    && flow.challenge.None? && !cfg.challengeRequired
    && VotesIn(cfg, f) && flow.vote.userId == TopUser(cfg, f) && 2 <= flow.vote.count
  }

  /** The state is not looked at again after the sidecar answered.  A session that was issued elsewhere
      in the meantime stays issued exactly if the frame carries a challenge on or casts the deciding vote;
      any other frame moves it back. */
  lemma StaysIssuedIff(cfg: Config, s: Slice, f: Frame)
    requires Live(s.session, f.answeredAt).Some? && s.session.value.state.Issued?
    ensures var after := FinishFrame(cfg, s, f).0.session;
            after.Some?
            && (after.value.state.Issued? <==> CarriesOn(cfg, FlowOf(s), f) || CastsTheDecidingVote(cfg, FlowOf(s), f))
  {
    hide FindMatch;
  }

  /** For every open session: a frame begins, the session is issued by passkey before the sidecar answers,
      and the answer shows no face.  The session is back at scanning, keeping the method it was issued by. */
  lemma FacelessFrameReopens(cfg: Config, s: Slice, f: Frame, issuedAt: int)
    requires Open(s) && f.face.None? && f.startedAt <= issuedAt <= f.answeredAt < issuedAt + cfg.ttlMs
    requires f.startedAt < s.session.value.expiresAt && issuedAt < f.startedAt + cfg.ttlMs
    ensures var begun := BeginFrame(cfg, s, f.startedAt);
            begun.Some?
            && var issued := begun.value.(session := Moved(begun.value.session, cfg.ttlMs, Issued, Passkey, issuedAt));
               issued.session == Some(Session(issuedAt + cfg.ttlMs, Issued, Passkey))
               && FinishFrame(cfg, issued, f).0.session == Some(Session(f.answeredAt + cfg.ttlMs, Scanning, Passkey))
  {
  }
}
