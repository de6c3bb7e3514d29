# Ostiarius: a verified model

Ostiarius is the gateway of a venue: it recognises people by face or passkey, signs
attestations for them and delivers these to other services.  Its hard parts are small state
machines that keep one promise while other requests run between their awaits.  This project
models them and proves the promises for every interleaving, every run and every input.

- **Cocoiru sessions** (`CocoiruSegments`, `CocoiruProtocol`, `CocoiruTheorems`, `CocoiruExact`,
  `CocoiruStore`): the code segments of `create`, `run`, `revoke` and `close` as functions, the transition system
  of all their interleavings, theorems over its runs, and the store itself as a class whose
  methods refine the segments with entries compared by object identity.
- **Onsite MFA** (`OnsiteMfa`, `OnsiteMfaProtocol`, `OnsiteMfaTheorems`, `OnsiteMfaExact`): the
  kiosk lock, nonces, claims and settlements.
- **Face decision** (`FaceMatcher`, `FaceMatcherExact`, `FaceFlow`, `FaceFlowTheorems`,
  `FaceFlowExact`, `IdentitySessions`): similarity, the best/runner-up scan, the vote and the
  automaton of one session over any sequence of frames.
- **Passkeys** (`Passkey`, `PasskeyProtocol`, `PasskeyExact`) and the **proximity router**
  (`KioskProximity`, `KioskProximityProtocol`, `KioskProximityExact`): one-shot challenges shared by
  several services, and one delivery at a time per session.
- **Face data** (`FaceTables`, `FaceHistory`, `FaceReview`, `FaceProtocol`, `FaceDeletion`,
  `FaceExact`, `FaceRecognition`) and **revocations** (`RevocationSync`, `RevocationSyncProtocol`,
  `RevocationSyncExact`, `RevokedUsers`): the handlers that write, all their interleavings, who is recognised after any
  history of writes, and what the stored position of overlapping pulls promises.
- **Outbox** (`Outbox`, `OutboxProtocol`, `OutboxExact`): overlapping retry sweeps.
- **Rate limiter** (`RateLimit`, `RateLimitExact`), **non-maximum suppression** (`Nms`, `NmsExact`),
  **tokens** (`Base64Url`, `Utf8`, `Json`, `JsonRoundTrip`, `CodecExact`, `Attestation`,
  `AttestationExact`).

The other modules of a component say what never goes wrong; its `Exact` module says when something
does happen.  Each such statement gives the condition in terms of the stored data, the request and
literal bounds, and holds in both directions, in most cases for every step of every run.

In every transition system a step is the code between two awaits, the clock does not go back,
and the environment chooses what remote calls return and when.  Run theorems speak of `ss`, `es`
and `ts`: the event `es[i]` takes the state `ss[i]` to `ss[i + 1]` at the clock reading `ts[i]`.

Where the code does not keep what one might expect, the exact condition is stated:

- `completeOnsiteMfa` returns no view exactly when the answer took until lifetime plus retention
  (`OnsiteMfaTheorems.SettleFindsItsSession`, `OnsiteMfaTheorems.SlowAnswerHasNoView`).
- A camera frame in flight may move an issued session back to scanning
  (`FaceFlowTheorems.StaysIssuedIff`, `FaceFlowTheorems.FacelessFrameReopens`), because
  server/face/verification-flow.ts:15-19 looks at the state only before the await; the proximity
  router then sends again (`KioskProximityProtocol.ReopenedIsSentAgain`).
- A deletion does not end what is under way.  It holds exactly if no live enrolment of the student
  carries a consent and no photo of theirs waits for its extraction (`FaceDeletion.DeletionHolds`,
  `FaceDeletion.DeletionFailsOtherwise`); `FaceDeletion.PhotoOutlivesDeletion` and
  `FaceProtocol.DeletionThenCommit` show both ways round it.
- A rejection that reports pending_not_found has deleted a consent exactly if the reason was usable
  and the user had a consent, but neither template nor photo (`FaceReview.RefusedAfterDeletingIff`,
  `FaceDeletion.RefusedRejectionDeletes`).
- A consent whose revocation time is 0 counts as not revoked (`FaceTables.RevocationCountsIff`), and
  such a consent can be pulled and stored (`RevocationSync.ZeroRevocationIsUsable`).
- Two first pulls of revocations that overlap for longer than the lookback leave a gap
  (`RevocationSyncProtocol.OverlappingFirstPulls`), and the minute by which positions lag is exactly
  the delay with which revocations may appear (`RevocationSyncProtocol.LateRowIsMissed`).
- A failure may lower the attempts of an outbox row (`OutboxProtocol.AttemptsKeptIff`,
  `OutboxProtocol.StaleDeferral`), but not if the sweeps of a target take turns
  (`OutboxProtocol.FailuresCountUp`).
- The sliding-window bound is one less than twice the limit, and is reached
  (`RateLimit.AlmostTwiceTheLimit`, `RateLimit.BoundIsSharp`).

`dafny verify dfyconfig.toml` checks the whole project.

## Model

| member | source | states |
|---|---|---|
| CocoiruTheorems.ExecutesOnlyOnAnUnbrokenSession | server/cocoiru-session-store.ts:56-82 | whenever `run` reaches the caller's execute callback, the owner check allows it, the store is open, the request is not aborted, and the object captured at the start is still the one mapped under its key and unexpired; and this held in every state since the capture, for every interleaving |
| CocoiruTheorems.NothingExecutesAfterTheEnd | server/cocoiru-session-store.ts:33-89 | after a revoke of the key, an admitted creation that replaces the session, a close, an abort of the request, or any check that is denied or finds the session changed, no run that captured the session earlier ever executes, even if the same fingerprint is published again |
| CocoiruTheorems.EndedForever | server/cocoiru-session-store.ts:96-99 | once a captured session is not current it is never current again, over any number of steps |
| CocoiruTheorems.EndedStaysEnded | server/cocoiru-session-store.ts:96-99 | no single step, publishing included, makes an ended session current |
| CocoiruTheorems.CapacityHolds | server/cocoiru-session-store.ts:25-55 | at every suspension point entries plus pending are within capacity, pending counts exactly the creations in flight and is at most 32, and a closed store is empty |
| CocoiruTheorems.GrantPublishedOrRevokedOnce | server/cocoiru-session-store.ts:39-54 | each grant a creation obtains from bind ends in exactly one of published and one remote revoke attempted, never both and never twice |
| CocoiruTheorems.PublishingNeverOverwrites | server/cocoiru-session-store.ts:43-46 | no step remaps a key; a new mapping is for a free key of an open store and a new object |
| CocoiruTheorems.SessionIdentityIsFixed | server/cocoiru-session-store.ts:41-67 | between any two states of a run an entry keeps its user, role, project and binding, its expiry does not grow and stays within 900,000 ms of its publication |
| CocoiruTheorems.ExecutionsAreTimelyAndOwn | server/cocoiru-session-store.ts:60-77 | every execution is for the user the session was published with and less than 900,000 ms after that |
| CocoiruTheorems.LaterStates | server/cocoiru-session-store.ts:25-105 | published objects are only added, expiries never grow and runs keep what they captured, from any state to any later one |
| CocoiruTheorems.ReachableInv | server/cocoiru-session-store.ts:25-105 | the invariant holds in every state of every run |
| CocoiruProtocol.StepKeepsInv | server/cocoiru-session-store.ts:25-105 | every code segment between two awaits keeps bounds, identities, captures, executions and the accounting of grants |
| CocoiruProtocol.StoreStep | server/cocoiru-session-store.ts:25-105 | a step either only narrows the stored sessions or publishes exactly one correctly bound session under a free key |
| CocoiruProtocol.BoundedStep | server/cocoiru-session-store.ts:29-54 | capacity and the pending count survive every step |
| CocoiruProtocol.GrantsStep | server/cocoiru-session-store.ts:39-54 | the accounting of grants survives every step |
| CocoiruSegments.AdmittedWithinCapacity | server/cocoiru-session-store.ts:26-33 | a creation is admitted only when room remains for the session it may publish, also while the previous one is revoked |
| CocoiruSegments.BindSettled | server/cocoiru-session-store.ts:39-50 | what is published passed all binding checks, is mapped under a free key in an open store with the expiry of its grant; otherwise sessions only narrow; pending drops exactly when the creation ends |
| CocoiruSegments.CheckSettled | server/cocoiru-session-store.ts:60-67 | a check only narrows the store, and permits a run only for the user of the captured entry |
| CocoiruSegments.CreateEnter | server/cocoiru-session-store.ts:25-33 | entering only removes sessions, and counts a pending task exactly when it is admitted |
| CocoiruSegments.RevokeEnter | server/cocoiru-session-store.ts:83-88 | the local effect of a revoke is final before the remote call and only removes sessions |
| CocoiruStore.CocoiruSessionStore.SweepExpired | server/cocoiru-session-store.ts:104 | in place, removes exactly the expired entries |
| CocoiruStore.CocoiruSessionStore.BeginRevoke | server/cocoiru-session-store.ts:83-88 | refines the revoke segment on heap objects, with the remote call it awaits |
| CocoiruStore.CocoiruSessionStore.BeginCreate | server/cocoiru-session-store.ts:25-33 | refines the entry segment of `create` on heap objects |
| CocoiruStore.CocoiruSessionStore.Admit | server/cocoiru-session-store.ts:30-33 | counts the creation, then revokes the previous session if one is given |
| CocoiruStore.CocoiruSessionStore.ResumeAfterPrevious | server/cocoiru-session-store.ts:33-35 | refines the segment after the previous session was revoked, `finally` included |
| CocoiruStore.CocoiruSessionStore.ResumeAfterExchange | server/cocoiru-session-store.ts:35-39 | refines the segment after the exchange, with the collision check |
| CocoiruStore.CocoiruSessionStore.ResumeAfterBind | server/cocoiru-session-store.ts:39-50 | refines the segment after bind: a fresh entry object is published or the grant goes to the compensating revoke |
| CocoiruStore.CocoiruSessionStore.ResumeAfterUndo | server/cocoiru-session-store.ts:48-54 | refines the end of a failed creation |
| CocoiruStore.CocoiruSessionStore.CheckEntry | server/cocoiru-session-store.ts:96-103 | comparing the mapped object by identity agrees with the entry test on values that the theorems use |
| CocoiruStore.CocoiruSessionStore.BeginRun | server/cocoiru-session-store.ts:57-58 | captures the mapped object, or fails with the source's error |
| CocoiruStore.CocoiruSessionStore.ResumeAfterCheck | server/cocoiru-session-store.ts:60-67 | refines re-validation after the check and the in-place refresh of grant and expiry |
| CocoiruStore.CocoiruSessionStore.OnAuthorizeResource | server/cocoiru-session-store.ts:71 | re-validates before answering |
| CocoiruStore.CocoiruSessionStore.OnExecute | server/cocoiru-session-store.ts:72-76 | re-validates and asks the owner check before executing |
| CocoiruStore.CocoiruSessionStore.IsCurrent | server/cocoiru-session-store.ts:68 | the test handed to the execute callback is the entry test of the theorems, so by EndedForever it stays false once it was false |
| CocoiruStore.CocoiruSessionStore.Publish | server/cocoiru-session-store.ts:45 | maps the key to a new object and touches no other |
| CocoiruStore.CocoiruSessionStore.Refresh | server/cocoiru-session-store.ts:67 | replaces grant and expiry of one object in place |
| CocoiruStore.CocoiruSessionStore.Forget | server/cocoiru-session-store.ts:65 | drops the mapping of one key |
| CocoiruStore.CocoiruSessionStore.Shutdown | server/cocoiru-session-store.ts:89 | closes and empties the store |
| OnsiteMfaTheorems.KioskIsExclusive | server/onsite-mfa/session-store.ts:57-77 | in every reachable state at most one session is submitting or waiting and unexpired, and stored nonces are pairwise distinct |
| OnsiteMfaTheorems.ReopenedOnlyAfterRetention | server/onsite-mfa/session-store.ts:79-86 | two successful opens of one nonce are at least lifetime plus retention apart |
| OnsiteMfaTheorems.SubmittedOnce | server/onsite-mfa/completion.ts:29-54 | over any run a session is submitted at most once, and two submissions of one nonce are more than the retention apart |
| OnsiteMfaTheorems.SettleFindsItsSession | server/onsite-mfa/completion.ts:46-54 | settling always finds its session still present and submitting, however long the answer took; the view that follows is absent if and only if lifetime plus retention had passed, and otherwise shows the outcome |
| OnsiteMfaTheorems.SlowAnswerHasNoView | server/onsite-mfa/completion.ts:46-54 | for every lifetime and retention there is a run, with any outcome, in which a submitted session is answered so late that no view is left |
| OnsiteMfaTheorems.ViewsOnlyAdvance | server/onsite-mfa/session-store.ts:88-118 | what a client can observe of a session is waiting, then one fixed terminal view, then absence for ever |
| OnsiteMfaTheorems.TerminalIsKept | server/onsite-mfa/session-store.ts:98-118 | a submitted, rejected or expired session is not touched again until it is swept |
| OnsiteMfaProtocol.StepKeepsInv | server/onsite-mfa/session-store.ts:57-129 | every open, look, claim and settlement keeps exclusivity, distinct nonces, the history of opens and the history of submissions |
| OnsiteMfaProtocol.NewOpeningApart | server/onsite-mfa/session-store.ts:124-128 | a nonce that is not stored was last opened at least lifetime plus retention ago |
| OnsiteMfa.OpenOnsiteMfaSession | server/onsite-mfa/session-store.ts:124-129 | in place: refuses a stored nonce first, then a busy kiosk, otherwise stores one waiting session |
| OnsiteMfa.FinishCompletion | server/onsite-mfa/completion.ts:52-53 | settles, then sweeps and shows what is left |
| OnsiteMfa.OnsiteMfaSessionStore.Active | server/onsite-mfa/session-store.ts:58-65 | finds a session holding the kiosk exactly when there is one, after sweeping |
| OnsiteMfa.OnsiteMfaSessionStore.HasNonce | server/onsite-mfa/session-store.ts:80-86 | true exactly for a nonce still stored, after sweeping |
| OnsiteMfa.OnsiteMfaSessionStore.ViewSession | server/onsite-mfa/session-store.ts:88-95 | sweeps and returns the public view |
| OnsiteMfa.OnsiteMfaSessionStore.ClaimSession | server/onsite-mfa/session-store.ts:98-103 | claims exactly a waiting, unexpired session |
| OnsiteMfa.OnsiteMfaSessionStore.SettleSession | server/onsite-mfa/session-store.ts:106-111 | settles exactly a submitting session, with its error |
| OnsiteMfa.OnsiteMfaSessionStore.SweepExpired | server/onsite-mfa/session-store.ts:113-118 | removes exactly the sessions past retention that are not being submitted |
| FaceFlowTheorems.FaceDecisionHasEvidence | server/face/verification-flow.ts:26-40 | an active decision for a user rests on three last vote-eligible frames for that user, then only live frames with that user on top up to the deadline, one whose raw signals show the demanded movement and a strictly later one, the deciding frame, whose raw signals show rest |
| FaceFlowTheorems.PassiveDecisionHasThreeVotes | server/face/verification-flow.ts:29-31 | a passive decision is made only where no challenge is required and by the third of the last three votes, all for that user |
| FaceFlowTheorems.FiveLiveFrames | server/face/verification-flow.ts:13-40 | an active decision needs at least five different live frames of the same user |
| FaceFlowTheorems.ThirdVoteDecides | server/face/verification-flow.ts:26-33 | while no challenge is open, a frame leads to a challenge or an issue if and only if it completes three votes in a row for one user; frames that fail earlier neither count nor reset |
| FaceFlowTheorems.DecidesOnce | server/face/verification-flow.ts:13-15 | after an issue or a fallback every later frame of the session is refused |
| FaceFlowTheorems.StaysIssuedIff | server/face/verification-flow.ts:20-43 | the state is not checked again after the await: a session issued elsewhere while a frame was in flight stays issued if and only if the frame is live and either carries an open challenge on (in time, with its user on top) or casts the third vote in a row where no challenge is required |
| FaceFlowTheorems.FacelessFrameReopens | server/face/verification-flow.ts:13-21 | for every open session: a frame begins, the session is issued by passkey, the frame is answered without a face, and the session is back at scanning |
| FaceFlowTheorems.TracksThroughout | server/face/verification-flow.ts:17-39 | the stored vote and challenge always agree with the history of frames |
| FaceFlow.ActingIsNotResting | server/face/challenge.ts:5-13 | no frame both shows an action and is at rest, so the way back is a later frame |
| FaceFlow.FaceVerificationFlow.Begin | server/face/verification-flow.ts:14-18 | in place: refuses a missing or closed session, otherwise touches it and creates its flow; other sessions are untouched |
| FaceFlow.FaceVerificationFlow.Finish | server/face/verification-flow.ts:20-34 | in place: the decision of one answered frame, in the order of checks of the source; other sessions are untouched |
| FaceFlow.FaceVerificationFlow.Challenged | server/face/verification-flow.ts:35-40 | the challenge phase: deadline and top user first, then progress and completion; the threshold is not checked |
| FaceFlow.FaceVerificationFlow.Voted | server/face/verification-flow.ts:27-33 | the scanning phase: no match, ambiguity, vote, challenge or issue |
| FaceMatcher.CauchySchwarz | server/face/matcher.ts:4-8 | the squared dot product is at most the product of the squared norms, for vectors of any length |
| FaceMatcher.SimilarityInUnitInterval | server/face/matcher.ts:4-8 | the similarity lies in [-1, 1] |
| FaceMatcher.CosineSimilarity | server/face/matcher.ts:4-8 | the accumulating loop computes the similarity, within [-1, 1] |
| FaceMatcher.ScanIsBest | server/face/matcher.ts:10-20 | the scan returns the first maximum and the exact best score among all other entries, -1 if there is none |
| FaceMatcher.FindFaceMatch | server/face/matcher.ts:10-21 | the loop computes that scan over the valid entries of any roster |
| FaceMatcher.OrderDoesNotMatter | server/face/matcher.ts:10-20 | every order of the same entries gives the same best score and runner-up, and with a positive margin the same unique winner |
| FaceMatcher.MatchIsIndependentOfRosterOrder | server/face/matcher.ts:10-21 | for rosters whose valid entries are a permutation of each other: somebody is found in both or in neither, with the same score and runner-up, and a winner strictly ahead is the same user |
| FaceMatcher.ScoresArePermuted | server/face/matcher.ts:10-15 | scoring a permutation of the entries gives a permutation of the scores |
| FaceMatcher.ConsecutiveFaceVote.Add | server/face/matcher.ts:26-30 | in place: an ineligible candidate resets, another user restarts at one, the third in a row elects |
| PasskeyProtocol.OneAssertionPerChallenge | server/passkey-checkin.ts:115-162 | over all interleavings of begin and finish on all services sharing a store, a challenge yields at most one verified assertion |
| PasskeyProtocol.VerifiedChallengeWasFresh | server/passkey-checkin.ts:134-140 | a verified assertion used a challenge that was put and not yet expired |
| PasskeyProtocol.CompletionUsesItsOwnChallenge | server/routes/onsite-mfa-kiosk.ts:68-83 | a passkey completion of an MFA session uses only a challenge that the MFA service's own begin issued for that very session, unexpired; no other put ever had it |
| PasskeyProtocol.StepKeepsInv | server/passkey-checkin.ts:91-162 | every begin, put, take and verification keeps the history of challenges, bindings and attempts |
| PasskeyProtocol.TakenWasPut | server/passkey-checkin.ts:134-140 | a challenge that can be taken was put in time, and the session it yields was bound by the same service in the same put |
| Passkey.ChallengeStore.Put | server/challenge-store.ts:16-20 | stores the challenge with its expiry |
| Passkey.ChallengeStore.Consume | server/challenge-store.ts:23-28 | removes the challenge whatever its age, and accepts it up to and including its expiry |
| Passkey.ChallengeStore.Sweep | server/challenge-store.ts:31-36 | removes exactly the challenges past their expiry |
| Passkey.PasskeyCheckinService.BeginSweep | server/passkey-checkin.ts:91-93 | sweeps challenges and bindings |
| Passkey.PasskeyCheckinService.BeginIssue | server/passkey-checkin.ts:106-107 | puts the challenge and binds it to a non-empty session |
| Passkey.PasskeyCheckinService.TakeAssertion | server/passkey-checkin.ts:115-140 | checks in the order of the source; binding and challenge are used up together, and only if every earlier check passed |
| Passkey.PasskeyCheckinService.TakeSessionId | server/passkey-checkin.ts:197-201 | uses the binding up, and returns it only before its expiry |
| KioskProximityProtocol.OneDeliveryInFlight | server/routes/kiosk-proximity.ts:40-58 | under every interleaving at most one request runs per session, so at most one delivery is in flight for it; the busy set is exactly the sessions with a running request |
| KioskProximityProtocol.NothingSentAfterRecorded | server/routes/kiosk-proximity.ts:40-58 | after a recorded delivery no further one is sent for the session, unless a transition elsewhere moved the issued session back |
| KioskProximityProtocol.ReopenedIsSentAgain | server/routes/kiosk-proximity.ts:40-58 | the exception happens: a run whose two outside steps are the begin and the finish of one faceless camera frame, and in which the session is sent again after a recorded delivery |
| KioskProximityProtocol.IssuedOnlyIfRecorded | server/passkey-checkin.ts:190-193 | a session is issued only if it was issued elsewhere or one of its deliveries was recorded; a failed delivery never issues it |
| KioskProximityProtocol.StepKeepsInv | server/routes/kiosk-proximity.ts:40-58 | every request segment and every outside create, get, touch, issue or transition keeps the invariant |
| KioskProximityProtocol.StaysClosed | server/identity-session-store.ts:25-59 | a session that is gone or issued is opened by no step but a transition out of issued |
| KioskProximity.KioskProximityRouter.Enter | server/routes/kiosk-proximity.ts:43-54 | in place: closed before busy before unknown action; only an admitted request stays busy |
| KioskProximity.KioskProximityRouter.LeaveBegin | server/routes/kiosk-proximity.ts:49-57 | a request that begins leaves the busy set, whatever came of it |
| KioskProximity.KioskProximityRouter.ResumeAfterVerification | server/passkey-checkin.ts:165-171 | sends only for the session the challenge was bound to, looked at again and still open; otherwise the request leaves |
| KioskProximity.KioskProximityRouter.ResumeAfterDelivery | server/passkey-checkin.ts:190-192 | issues the session only for a recorded delivery, and always leaves the busy set |
| IdentitySessions.IdentitySessionStore.Create | server/identity-session-store.ts:17-23 | sweeps and stores a fresh idle session |
| IdentitySessions.IdentitySessionStore.Get | server/identity-session-store.ts:25-33 | returns a live session and removes an expired one |
| IdentitySessions.IdentitySessionStore.Touch | server/identity-session-store.ts:36-41 | extends a live session only |
| IdentitySessions.IdentitySessionStore.Issue | server/identity-session-store.ts:43-50 | marks a live session issued by passkey |
| IdentitySessions.IdentitySessionStore.Transition | server/identity-session-store.ts:52-59 | moves a live session, keeping its method if none is given |
| IdentitySessions.IdentitySessionStore.Sweep | server/identity-session-store.ts:61-64 | removes exactly the expired sessions |
| RateLimit.AlmostTwiceTheLimit | server/http-security/rate-limit.ts:33-42 | with a clock that does not go back, any half-open interval of one window length holds at most 2 limit - 1 allowed hits per key |
| RateLimit.BoundIsSharp | server/http-security/rate-limit.ts:33-42 | that bound is reached for every positive limit and window of at least 2 ms |
| RateLimit.SweepingIsInvisible | server/http-security/rate-limit.ts:46-74 | sweeping never changes any answer compared with never sweeping |
| RateLimit.RetryAfterIsHonest | server/http-security/rate-limit.ts:40-41 | a hit at least the announced seconds after a rejection belongs to a later window, and is allowed if it is the first there |
| RateLimit.WindowsDoNotOverlap | server/http-security/rate-limit.ts:33-39 | over any hits a key's window is the same or starts after the earlier one ended |
| RateLimit.RateLimiter.HitRateLimit | server/http-security/rate-limit.ts:33-42 | in place: restarts or counts the bucket and answers |
| RateLimit.RateLimiter.SweepBuckets | server/http-security/rate-limit.ts:46-50 | removes exactly the buckets whose window ended |
| RateLimit.RateLimiter.Handle | server/http-security/rate-limit.ts:68-79 | sweeps at most once per window, then hits; an unresolved address is one shared key |
| Nms.GreedyIsCorrect | face-sidecar/face_sidecar/app.py:108-121 | at most five boxes with scores of at least .5 in descending order and pairwise overlap below .4 are kept; every other good one overlaps a kept box of no lower score, or the five were used up by boxes of no lower score |
| Nms.EveryGoodBoxIsAccountedFor | face-sidecar/face_sidecar/app.py:108-121 | the same for every box of the input |
| Nms.Suppress | face-sidecar/face_sidecar/app.py:108-121 | the loop computes the greedy choice and terminates |
| Nms.OverlapIsSymmetric | face-sidecar/face_sidecar/app.py:115-120 | which of two boxes is kept first does not change their overlap |
| Base64Url.CanonicalIffEncoding | server/passkey-checkin.ts:54-56 | a text is accepted if and only if it is the encoding of some non-empty byte string (section 5 of RFC 4648) |
| Base64Url.CanonicalIffZeroPadBits | server/passkey-checkin.ts:54-56 | a text is accepted if and only if it is non-empty, in the alphabet, has no lone sixth and zero pad bits (section 3.5 of RFC 4648) |
| Base64Url.DecodingIsInjective | server/passkey-checkin.ts:54-56 | two accepted texts with the same bytes are equal |
| Base64Url.DecodeUndoesEncode | server/attestation.ts:66-72 | decoding undoes encoding on every byte string |
| Base64Url.EncodesAsUrlText | server/attestation.ts:66-68 | replacing two characters and stripping the padding gives the base64url alphabet directly |
| Utf8.DecodeUndoesEncode | server/attestation.ts:96-99 | reading bytes as text undoes writing text as bytes |
| JsonRoundTrip.ParseUndoesStringify | server/attestation.ts:96-99 | parsing undoes serialising for values nested to any depth, with every escape of section 7 and every number of section 6 of RFC 8259 |
| JsonRoundTrip.NumberBack | server/attestation.ts:96-99 | what follows a value does not change how its number is read |
| Attestation.SignedPurposeIsRead | server/attestation-purpose-guard.ts:15-27 | reading a signed token back through split, base64url, UTF-8 and JSON gives the signed purpose, for any text in any field |
| Attestation.VerifiedPayloadIsTheSignedOne | server/attestation.ts:108-117 | a verifier that accepts the signature reads exactly the signed payload |
| Attestation.CanonicalPayloadIsInjective | server/attestation.ts:82-93 | different payloads give different signed values |
| Attestation.GateAcceptsItsPurposeOnly | server/attestation-purpose-guard.ts:30-33 | a signed token passes a gate if and only if it was signed for the purpose of that gate |
| Attestation.SentOnlyForItsPurpose | server/cernere-attestation-submit.ts:63-98 | the exact condition under which a token leaves on the attendance, MFA or registration channel and is reported recorded or accepted; none leaves on two channels of different purpose, the outbox included |
| Attestation.OutboxPayloadReadsBack | server/face/aedilis-outbox.ts:26-33 | a queued payload is taken for an attendance exactly when its token passes the attendance gate |
| FaceProtocol.RecognisedInEveryRun | server/face/template-roster.ts:23-43 | in every interleaving of enrolment, photo, consent, commit, review, deletion and pull handlers, with requests in flight across their awaits, the tables are what the history of writes says, and a user is in the roster if and only if that history allows it |
| FaceProtocol.EnrolmentActivatesOnce | server/routes/identity-enroll.ts:144-171 | over any run an enrolment yields at most one active template, by commit or re-enrolment, and is gone after it |
| FaceProtocol.ActiveTemplateHasEvidence | server/face/review-service.ts:94-115 | every active template written came from an enrolment of its own user with at least six shots, and carries a consent recorded for that user |
| FaceProtocol.StoredTemplateHasConsent | server/routes/identity-enroll.ts:67-171 | whatever is stored, from a photo or from shots, promoted or not, carries a consent that was recorded for an enrolment of its user |
| FaceDeletion.DeletionHolds | server/routes/identity-enroll.ts:179-189 | in every run: if a registration is deleted while no live enrolment of the student carries a consent and no photo of theirs waits for its extraction, then whatever template of theirs is written or found afterwards carries a consent that was recorded for them after the deletion |
| FaceDeletion.DeletionFailsOtherwise | server/routes/identity-enroll.ts:106-141 | that condition is exact: if it fails, the run goes on to an active template of the student with no consent given after the deletion and none stored |
| FaceDeletion.StoredRightAfterIff | server/routes/identity-enroll.ts:119-189 | right after a deletion the student has a template again if and only if the next step is the commit or re-enrolment of a live, consented enrolment of theirs with enough shots by whom it may be done, or the end of a photo of theirs that shows a face |
| FaceDeletion.PhotoOutlivesDeletion | server/routes/identity-enroll.ts:106-141 | a run: a photo waits while the registration is deleted, is stored and then promoted; the template is active and no consent is stored |
| FaceDeletion.StoredSinceDeletion | server/routes/identity-enroll.ts:179-189 | a template found after a deletion was written after it |
| FaceDeletion.FreshOnlyStep | server/routes/identity-enroll.ts:67-189 | every handler segment keeps what a deletion with nothing under way established |
| FaceProtocol.DeletionThenCommit | server/routes/identity-enroll.ts:144-189 | in every run: a registration is deleted while a consented enrolment of that student with enough shots is live, and the commit that follows puts the student back into the roster, exactly until a year after the commit, though no consent of theirs is stored |
| FaceProtocol.StepKeepsInv | server/routes/identity-enroll.ts:67-189 | every handler segment keeps the history, the recorded consents and the used enrolments |
| FaceProtocol.ActivationsTouched | server/face/review-service.ts:94-115 | a template from shots is written exactly when a live enrolment of the same student with at least six shots is used up |
| FaceProtocol.NewWritesOk | server/routes/identity-enroll.ts:67-171 | every write of a handler is valid, and stores no template without a recorded consent of its user |
| FaceHistory.RecognisedIff | server/face/template-roster.ts:23-43 | for any valid history of writes, a user is in the roster if and only if the last template stored for them was not deleted since, came from shots or was promoted later, has this model and opens, and no more than a year has passed since the last consent, or since the enrolment if no consent is stored |
| FaceHistory.TemplateIsTheLastStored | server/db.ts:194-235 | the stored template is the last one stored, active exactly if it came from shots or was promoted since |
| FaceHistory.ConsentIsTheLastCopied | server/db.ts:290-298 | the stored consent is the last one copied since the last deletion |
| FaceHistory.DeletedUntilStoredAgain | server/db.ts:314-322 | a deleted user stays out of the roster through any history that stores no new template |
| FaceHistory.EnrolledAfterDeletion | server/routes/identity-enroll.ts:144-171 | a deletion followed by a template from shots leaves the user recognised exactly until a year after that enrolment |
| FaceHistory.NoPhotoAlone | server/face/local-store.ts:150-152 | no photo is ever left without its user's template, no stored consent is revoked, no stored template is in state revoked |
| FaceHistory.RosterShrinks | server/face/consent-policy.ts:38-46 | without writes the roster only shrinks as time advances |
| FaceTables.BuildFaceRoster | server/face/template-roster.ts:23-43 | the loop collects exactly the users that qualify, in ascending order, each with the embedding of their own template |
| FaceTables.ListingIsUnique | server/db.ts:214-218 | an ascending listing is determined by its users |
| FaceTables.FaceDatabase.ListActive | server/db.ts:214-218 | lists exactly the users with an active template, ascending |
| FaceTables.FaceDatabase.UpsertFaceTemplate | server/db.ts:194-208 | replaces the row and clears its revocation |
| FaceTables.FaceDatabase.SetFaceTemplateState | server/db.ts:221-235 | changes state and revocation of an existing row, whatever its state was, and says whether there was one |
| FaceTables.FaceDatabase.UpsertFacePhoto | server/db.ts:258-266 | replaces the photo |
| FaceTables.FaceDatabase.UpsertFaceConsentCopy | server/db.ts:290-298 | replaces the consent copy |
| FaceTables.FaceDatabase.CountFaceSubjectRows | server/db.ts:324-328 | counts the rows of a user in each table |
| FaceTables.FaceDatabase.PurgeFaceSubject | server/db.ts:314-322 | removes the user from all three tables and reports what there was |
| FaceRecognition.Identify | server/index.ts:112 | whoever is identified after any history is a user that history allows, scored against the template it left; no allowed user scores higher, and an allowed user is never overlooked altogether |
| FaceReview.FaceReviewService.Approve | server/face/review-service.ts:50-71 | in place: promotion activates any stored template; re-enrolment stores one active template from the shots and uses the enrolment up; answer, write and enrolments as in the handler function the run theorems use |
| FaceReview.FaceReviewService.StoreReenrolledTemplate | server/face/review-service.ts:94-115 | the failures in order, the stored template, and the enrolments left |
| FaceReview.FaceReviewService.Reject | server/face/review-service.ts:77-91 | in place: the reason is checked first and decides alone whether the rows of the user are deleted; the answer depends on template and photo |
| FaceReview.RefusedAfterDeletingIff | server/face/review-service.ts:77-91 | pending_not_found is reported with the tables changed if and only if the reason was usable and the user had a consent but neither template nor photo; then exactly the consent is gone |
| FaceDeletion.RefusedRejectionDeletes | server/face/review-service.ts:77-91 | a run that reaches it: a consent is recorded, and a rejection answered with pending_not_found deletes it |
| FaceReview.BlankReason | server/face/review-service.ts:78-79 | a reason is refused as missing exactly when it is all white space |
| FaceReview.FaceReviewService.Commit | server/routes/identity-enroll.ts:144-171 | in place: the failures in order, and one active template for the enrolled student; the enrolment is used up |
| FaceReview.FaceReviewService.FinishPhoto | server/routes/identity-enroll.ts:119-141 | a photo without a face stores nothing; otherwise photo and pending template are stored together |
| FaceReview.FaceReviewService.FinishConsent | server/routes/identity-enroll.ts:75-83 | the copy is stored exactly when the enrolment is still live and takes the consent |
| FaceReview.FaceReviewService.DeleteRegistration | server/routes/identity-enroll.ts:179-189 | everything of the user is deleted, and one row with the revocation of the consent is added to the outbox exactly when there was something |
| FaceTables.RevocationCountsIff | server/face/consent-policy.ts:38-46 | of a consent at most a year old, a revocation makes it unusable if and only if it is not at instant 0 |
| RevocationSync.CopiedIff | server/face/revocation-sync.ts:160-169 | a pulled consent is stored as a copy if and only if it has no revocation, or one at instant 0 |
| RevocationSync.ZeroRevocationIsUsable | server/face/revocation-sync.ts:147-176 | after any pull that ends with a revocation at instant 0 the copy is stored with it, stays usable for a year, and the templates are untouched by it |
| FaceReview.EnrollmentSessionStore.Start | server/face/enrollment-session.ts:17-26 | sweeps exactly the expired enrolments and stores a fresh one |
| FaceReview.EnrollmentSessionStore.Get | server/face/enrollment-session.ts:28-36 | returns a live enrolment and removes an expired one |
| FaceReview.EnrollmentSessionStore.Consented | server/face/enrollment-session.ts:37 | records a non-empty consent for a live enrolment only |
| FaceReview.EnrollmentSessionStore.Add | server/face/enrollment-session.ts:38 | keeps a shot exactly for a live, consented enrolment |
| RevocationSync.ApplyFaceRevocations | server/face/revocation-sync.ts:104-112 | removes exactly the listed users from all three tables and returns how many distinct listed users had rows, whatever the order and repetition of the list |
| RevocationSync.RevocationsAreDeletions | server/face/revocation-sync.ts:104-112 | a pulled list is a history of deletions |
| RevocationSync.RevocationsRepeat | server/face/revocation-sync.ts:104-112 | applying the same list again, in any order, changes nothing and counts nothing |
| RevocationSync.FaceSync.StartRevocationPull | server/face/revocation-sync.ts:95-98 | asks from the stored position if it is positive, otherwise from one lookback ago |
| RevocationSync.FaceSync.FinishRevocationPull | server/face/revocation-sync.ts:117-141 | a successful pull applies its list and stores its own start less a minute; any failure leaves position and tables alone |
| RevocationSync.FaceSync.FinishConsentPull | server/face/revocation-sync.ts:147-176 | every valid consent record is one write in order: a copy, or a deletion if it is revoked |
| RevocationSync.FaceSync.ApplyConsents | server/face/revocation-sync.ts:160-169 | the loop performs one write per valid record, in order |
| RevocationSyncProtocol.NothingIsMissed | server/face/revocation-sync.ts:59-141 | under any overlap of pulls, every instant from an applied lookback to the stored position is accounted for by an applied pull; if revocations become visible less than a minute after their stamp, every one stamped in that time was in the answer of an applied pull that asked for its stamp and began after it was visible |
| RevokedUsers.RevokedUsersAreOut | server/face/revocation-sync.ts:95-141 | with pulls and all handlers interleaved: every such revocation was applied after it appeared, its user was then out of all three tables, and any row of theirs that is there now was written after that |
| RevokedUsers.EveryWindowWasApplied | server/face/revocation-sync.ts:117-141 | every pull that moved the position was applied to the tables in the same segment, after it began |
| RevocationSyncProtocol.LateRowIsMissed | server/face/revocation-sync.ts:59-60 | the minute is exactly enough: for any longer delay there is a run in which a revocation in the covered time is in no answer |
| RevocationSyncProtocol.CoveredFromALookback | server/face/revocation-sync.ts:95-141 | the coverage reaches back to any applied lookback, if every applied one began no later than the lookback, less the minute, after it |
| RevocationSyncProtocol.OverlappingFirstPulls | server/face/revocation-sync.ts:95-98 | for two overlapping first pulls, the coverage from the first is complete if and only if the second window begins no later than the first instant the first one leaves open, or the position is still before it |
| RevocationSyncProtocol.FailureKeepsThePosition | server/face/revocation-sync.ts:121-140 | the position changes only by a successful pull |
| RevocationSyncProtocol.StepKeepsInv | server/face/revocation-sync.ts:95-141 | every start, publication and answer keeps the coverage of all pulls and of the position |
| OutboxProtocol.LeavesOnlyWhenAccepted | server/face/aedilis-outbox.ts:16-23 | with overlapping sweeps for both targets and concurrent enqueues, a queued message is gone only if it was accepted or is one its sweep does not send; only sendable messages are ever posted |
| OutboxProtocol.AttendanceLeavesOnlyWhenAccepted | server/face/aedilis-outbox.ts:9-23 | an attendance that was queued leaves only after a 2xx answer to its own payload |
| OutboxProtocol.RevocationLeavesOnlyWhenAccepted | server/face/consent-outbox.ts:48-60 | a queued revocation of a consent leaves only after it was accepted |
| OutboxProtocol.GoneStaysGone | server/face/aedilis-outbox.ts:16-23 | an acknowledged row never comes back, not even by a sweep that still lists it |
| OutboxProtocol.OtherTargetsUntouched | server/face/consent-outbox.ts:49-50 | a sweep leaves every row of another target unchanged |
| OutboxProtocol.FailedRowsWait | server/db.ts:368 | a row whose request failed is kept and waits between 60 s and 900 s, by the attempts it was listed with |
| OutboxProtocol.AttemptsKeptIff | server/db.ts:368 | a failure leaves the attempts of its row no lower if and only if they were at most one above what the sweep had listed |
| OutboxProtocol.FailuresCountUp | server/index.ts:300-302 | if the sweeps of a target take turns, each failure raises the attempts of its row by exactly one, and the row waits no less than after the failure before |
| OutboxProtocol.StaleDeferral | server/index.ts:300-302 | without turns, sweeps a minute apart suffice: a run in which the first sweep fails last, takes its row from two attempts back to one and makes it due earlier |
| OutboxProtocol.StepKeepsInv | server/face/aedilis-outbox.ts:16-23 | every enqueue, listing and answer keeps the messages of rows and sweeps and the reasons why rows are gone |
| Outbox.DelaysGrow | server/db.ts:368 | the delay is at least 60 s, at most 900 s and monotone in the attempts |
| Outbox.AdvanceStops | server/face/aedilis-outbox.ts:17-19 | between two sends a sweep keeps the rows it does not drop as they are and stops at a sendable one of its target |
| Outbox.AdvancePasses | server/face/aedilis-outbox.ts:17-19 | what it drops is an unsendable row of its target that it passed |
| Outbox.RevocationReadsBack | server/face/consent-outbox.ts:20-41 | every queued revocation that names a user is read back as it was queued |
| Outbox.DueIsDue | server/db.ts:366 | the listing has exactly the rows that are due |
| Outbox.OutboxTable.Enqueue | server/db.ts:365 | adds one row under a new id |
| Outbox.OutboxTable.ListDue | server/db.ts:366 | lists the due rows by id |
| Outbox.OutboxTable.Acknowledge | server/db.ts:367 | removes one row |
| Outbox.OutboxTable.DeferRow | server/db.ts:368 | sets attempts and next time of a row that still exists |
| Outbox.OutboxTable.DeliverAttestation | server/face/aedilis-outbox.ts:9-15 | queues exactly an attendance that was not recorded; a token for another purpose is neither sent nor queued |
| Outbox.OutboxTable.EnqueueConsentRevocation | server/face/consent-outbox.ts:20-22 | queues the revocation under its own target |
| Outbox.OutboxTable.StartRetry | server/face/aedilis-outbox.ts:17-19 | in place: lists what is due and goes on to the first send |
| Outbox.OutboxTable.ResumeRetry | server/face/aedilis-outbox.ts:20-22 | in place: acknowledges or defers the row that was sent and goes on to the next send |
| CocoiruExact.ExecutesIff | server/cocoiru-session-store.ts:72-76 | in every run, a call of execute runs the caller's callback exactly if the owner check allows it and the captured session is still mapped, unexpired, in an open store, for a request that is not aborted; what is logged is its user and instant |
| CocoiruExact.CallbackAnswers | server/cocoiru-session-store.ts:68-76 | authorizeResource says yes, and execute calls the callback, exactly if the session holds and the owner check allows it; a refusal by the owner check alone is native_resource_owner_ended |
| CocoiruExact.CurrentIff | server/cocoiru-session-store.ts:96-103 | the entry test passes exactly for this very object under its key, unexpired, in an open store, for a live request; an abort is reported before anything else |
| CocoiruExact.CapturesIff | server/cocoiru-session-store.ts:56-58 | in every run, run captures a session exactly if the token is well formed and its session holds, and captures that mapping |
| CocoiruExact.RunRefusals | server/cocoiru-session-store.ts:90-95 | which error run fails with: a malformed or unknown token is no session, an ended or aborted one is reported as such |
| CocoiruExact.PermitsIff | server/cocoiru-session-store.ts:60-67 | in every run, a check permits a run exactly if the session still holds and is the same by project, user, role and binding with an expiry ahead that has not grown; only then is the entry refreshed, and otherwise the error says why |
| CocoiruExact.AdmittedIff | server/cocoiru-session-store.ts:26-33 | in every run, a creation is admitted exactly if its request is in order and the unexpired sessions and creations in flight leave room, of which there may be 32; otherwise the error says why |
| CocoiruExact.GoesOnToBindIff | server/cocoiru-session-store.ts:33-38 | in every run, a creation goes on to bind exactly if the steps before succeeded for a live request in an open store and the token is well formed and new; otherwise the error says why |
| CocoiruExact.PublishesIff | server/cocoiru-session-store.ts:39-47 | in every run, a bound grant is published exactly if it is for this project, the exchanged user and role, bound to this token, ends within 900 s, and its key is free, for a live request in an open store; any other grant goes to the compensating revoke |
| CocoiruExact.UndoReports | server/cocoiru-session-store.ts:48-52 | a failed compensation is reported as such, otherwise the first failure is |
| CocoiruExact.LeavesIff | server/cocoiru-session-store.ts:27-104 | in every run, a session leaves the store exactly by its revoke, by a creation that finds it expired or replaces it, by a close, by a denial, or by a check that finds it changed |
| CocoiruExact.CreationDrops | server/cocoiru-session-store.ts:27-33 | an admission drops what is expired and the session it replaces, and nothing else |
| CocoiruExact.CheckDrops | server/cocoiru-session-store.ts:59-66 | a check drops the session it is about exactly if it is denied, or finds the session holding but changed |
| CocoiruExact.RevokesRemotelyIff | server/cocoiru-session-store.ts:83-88 | a revoke calls the authority exactly for an unexpired session of its token, with the grant of that session |
| CocoiruExact.WellFormedTexts | server/cocoiru-session-store.ts:16-26 | the two patterns, for tokens and codes and for verifiers, by length and alphabet |
| CocoiruExact.TokensAreOpaque | server/cocoiru-session-store.ts:24 | every 32 random bytes, encoded, are a well-formed token |
| OnsiteMfaExact.OpensIff | server/onsite-mfa/session-store.ts:124-129 | in every run, an open succeeds exactly if every stored session is neither being submitted nor waiting and unexpired, and every one of this nonce is past its retention; the session then waits for one lifetime |
| OnsiteMfaExact.OpenRefusals | server/onsite-mfa/session-store.ts:124-129 | an open is refused as nonce_reused exactly if a session of the nonce is kept, and as kiosk_busy exactly if none is and a session holds the kiosk |
| OnsiteMfaExact.SubmitsIff | server/onsite-mfa/completion.ts:34-35 | in every run, a completion submits its session exactly if that waits and has not expired, and then marks it; any other completion ends at once |
| OnsiteMfaExact.SeenTable | server/onsite-mfa/session-store.ts:88-95 | what a client sees of every stored state, before and after expiry and retention |
| OnsiteMfaExact.ForgottenIff | server/onsite-mfa/session-store.ts:113-118 | in every run, a session leaves the store exactly at the first open, look or answer after its retention, and while being submitted only by its own answer |
| OnsiteMfaExact.AnswerIsRecorded | server/onsite-mfa/session-store.ts:106-111 | in every run, an answer is recorded, with its error, on the session that was being submitted |
| FaceFlowTheorems.SignalsIff | server/face/challenge.ts:5-13 | which raw signals show the demanded movement and which show rest, for each of the four challenges; none shows both |
| FaceFlowExact.MovedIff | server/face/challenge.ts:5-9 | on a live frame in time with its person first, an open challenge becomes moved exactly if the pose has a yaw below -15 for a left turn or above 15 for a right turn, a pitch below -12 for a nod, or both eyes are above .5 for a blink |
| FaceFlowExact.IssuedIffAtRest | server/face/challenge.ts:10-13 | once moved, such a frame issues the session exactly if it shows rest: within 5 degrees, or one eye below .2; a missing signal is rest |
| FaceFlowExact.IsLiveIff | server/face/verification-flow.ts:20-24 | a frame takes part exactly if it has a face of good quality, liveness no lower than the threshold, where a missing one counts as zero, and an embedding |
| FaceFlowExact.GivesUpIff | server/face/verification-flow.ts:23-37 | the exact condition of each of the three reasons to give a session up, on one frame |
| FaceFlowExact.GivesUpOnTheThirdAndTenth | server/face/verification-flow.ts:23-28 | in every run of frames, a session is given up for spoofing exactly on its third frame of low liveness and for ambiguity exactly on its tenth unclear one |
| FaceFlowExact.CountsAreExact | server/face/verification-flow.ts:23-28 | in every run, an open session has counted exactly its frames of low liveness and its unclear ones |
| FaceFlowExact.HintSaysWhy | server/face/verification-flow.ts:20-30 | the hint of every frame that leaves the session scanning |
| FaceFlowExact.BeginsIff | server/face/verification-flow.ts:14-18 | a frame begins exactly for an unexpired, undecided session, and extends it |
| FaceFlowExact.SessionFollows | server/face/verification-flow.ts:32-43 | state, method and expiry of the kiosk session after every answer |
| FaceFlowExact.ElectsOnThreeInARow | server/face/matcher.ts:23-32 | after any candidates, somebody is elected exactly if the last three are votes for them: at or above the threshold and ahead by the margin |
| FaceMatcherExact.DotIsBilinear | server/face/matcher.ts:6 | the accumulated sum is symmetric and linear in either vector |
| FaceMatcherExact.DotWithUnit | server/face/matcher.ts:6 | with a unit vector it gives that coordinate, so with bilinearity it is the inner product |
| FaceMatcherExact.SimilarityIsTheCosine | server/face/matcher.ts:4-8 | the similarity is zero if a vector vanishes; otherwise it has the sign of the inner product, and its square times the squared norms is the square of the inner product |
| FaceMatcherExact.SimilarToItself | server/face/matcher.ts:4-8 | a vector that does not vanish has similarity 1 with every positive multiple of itself |
| FaceMatcherExact.MatchWins | server/face/matcher.ts:10-21 | the scan finds nobody exactly if no entry is named; otherwise the first entry with the highest similarity, and the highest similarity of the other named entries, or -1 |
| PasskeyExact.TakenIff | server/passkey-checkin.ts:122-136 | in every run, a finish takes its challenge exactly if signature, credential and challenge are in order and the challenge is stored and not past its expiry; the attempt is for the owner of the credential, that challenge, and the session bound to it |
| PasskeyExact.RefusedIff | server/passkey-checkin.ts:122-140 | the exact condition of each refusal before the verifier |
| PasskeyExact.AttemptWasRequested | server/passkey-checkin.ts:115-162 | in every run, every attempt comes from an earlier finish of its service whose request names its user and its challenge |
| PasskeyExact.VerifiedWasRequested | server/passkey-checkin.ts:141-161 | in every run, every verified assertion and every completion identifies the user that an earlier request named, by the challenge that it named |
| PasskeyExact.CompletedIff | server/routes/onsite-mfa-kiosk.ts:68-83 | in every run, an accepted answer verifies its own attempt, and completes an MFA session exactly if the attempt was made on the MFA service for that session |
| PasskeyExact.FreshChallengeIsTaken | server/passkey-checkin.ts:91-136 | in every run, the first finish in order with a challenge, no later than its expiry, is an attempt for the owner of the credential, and before the expiry for the session of the begin |
| PasskeyExact.GoneIff | server/challenge-store.ts:22-36 | in every run, a challenge leaves the store exactly when a finish in order names it or a begin finds it expired; a binding likewise, at the begin of its service |
| KioskProximityExact.LetThroughIff | server/routes/kiosk-proximity.ts:43-57 | in every run, a request is let through exactly if its session is there, unexpired and not issued, no other request of it is under way, and the action is known |
| KioskProximityExact.TurnedAwayWith | server/routes/kiosk-proximity.ts:44-54 | the exact condition of each answer to a request that is turned away |
| KioskProximityExact.SendsIff | server/passkey-checkin.ts:164-171 | in every run, a verified request sends exactly if its challenge was bound to its own session and that is still there, unexpired and not issued |
| KioskProximityExact.IssuesIff | server/routes/kiosk-proximity.ts:19-22 | in every run, a delivery issues its session by passkey exactly if it was recorded and the session is still there |
| KioskProximityExact.ElsewhereIs | server/identity-session-store.ts:17-59 | what create, get, touch and transition leave of any session |
| RateLimitExact.AllowedIff | server/http-security/rate-limit.ts:33-42 | in every run of hits, a hit is allowed exactly if its window, from the hit that opened it on, holds no more than the limit with it; a rejected one is told the least whole number of seconds, and at least one, until that window is over |
| RateLimitExact.BucketIsTheWindow | server/http-security/rate-limit.ts:33-39 | the bucket of a key holds the instant at which its window was opened and the hits since |
| RateLimitExact.CountedByAddress | server/http-security/rate-limit.ts:75-76 | requests are counted apart exactly by their address, and those without one together |
| NmsExact.ApartIff | face-sidecar/face_sidecar/app.py:115-120 | two boxes are far enough apart exactly if ten times their intersection is less than four times their union, with the stated exception for a tiny union |
| NmsExact.IntersectionIs | face-sidecar/face_sidecar/app.py:115-117 | the intersection is the area of the common box, or zero |
| NmsExact.AtMostFiveGoodOnes | face-sidecar/face_sidecar/app.py:108-121 | at most five boxes are kept, with scores of at least a half; every other such box overlaps one of no lower score, or five of no lower score are kept |
| CodecExact.GroupIsBigEndian | server/attestation.ts:66-68 | three bytes and the four values written for them are the same number of 24 bits, most significant first |
| CodecExact.GroupsAreEncodedInTurn | server/attestation.ts:66-68 | whole groups of three bytes are encoded one after the other |
| CodecExact.FourCharacters | server/attestation.ts:66-68 | the alphabet, position by position |
| CodecExact.TestVector | server/attestation.ts:66-68 | the bytes of "foobar" are encoded as in section 10 of RFC 4648 |
| CodecExact.EitherAlphabet | server/attestation.ts:70-72 | decoding reads the characters of both alphabets and no others |
| Base64Url.EncodedLength | server/attestation.ts:66-68 | the text of n bytes has 4 characters for 3 bytes and 2 or 3 for the rest, without padding |
| CodecExact.BytesOfCharacter | server/attestation.ts:97 | the bytes of a character are those of section 3 of RFC 3629 |
| CodecExact.DecodesIff | server/attestation.ts:116 | a character is decoded exactly where its encoding stands; any other byte reads as U+FFFD |
| CodecExact.EscapeTable | server/attestation.ts:97 | which characters JSON text escapes, and how (section 7 of RFC 8259) |
| CodecExact.SurroundedBySpace | server/attestation.ts:116 | white space around the text of a value is ignored |
| CodecExact.PropertyIsTheLast | server/attestation-purpose-guard.ts:19-21 | a property of a parsed object is the value of its last member of that name |
| AttestationExact.PayloadText | server/attestation.ts:82-97 | the signed text, field by field: names, order and punctuation |
| AttestationExact.DecimalIsTheNumber | server/attestation.ts:88 | the instant is written in decimal digits without a leading zero |
| AttestationExact.PartsIff | server/attestation-purpose-guard.ts:16-17 | the two parts of a token are the texts before its first dot and from there to the next dot or the end, neither empty |
| AttestationExact.PurposeOfToken | server/attestation-purpose-guard.ts:15-27 | the purpose of a token with any payload: the property of that name, an attendance if there is none, unreadable if it is no text or the payload no object |
| AttestationExact.UnreadablePasses | server/attestation-purpose-guard.ts:15-33 | a token that cannot be read passes every gate, to be refused by the receiver |
| AttestationExact.AttendanceAnswers | server/attendance-delivery.ts:9-31 | what an attendance of a signed token is answered with, in every case |
| AttestationExact.SubmitAnswers | server/cernere-attestation-submit.ts:68-97 | what a submission of a signed token is answered with, in every case |
| FaceExact.ConsentIsCopiedIff | server/routes/identity-enroll.ts:75-83 | in every run, a consent is copied exactly if it was granted, under an identifier, while its enrolment is live; the copy has the identifier, policy version and instant of the grant |
| FaceExact.StoredConsentWasGiven | server/routes/identity-enroll.ts:76-83 | in every run, a stored consent is one that was recorded for its user, with the instant of the grant, or a record pulled for its user, with the instant of the record |
| FaceExact.RecordedWasGranted | server/routes/identity-enroll.ts:74-83 | in every run, every recorded consent is the answer to a request that waited for one, with its instant, for the student of the enrolment |
| FaceExact.RosterForAYearFromTheGrant | server/face/consent-policy.ts:28-46 | in every run, a user is in the roster exactly if their template is active, of this model and opens, and no more than 31,536,000,000 ms have passed since their stored consent was given or, without one, since the template |
| FaceExact.RecordIsAsStarted | server/face/enrollment-session.ts:17-26 | in every run, an enrolment stays with the student and staff member it was started for |
| FaceExact.CommitStoresIff | server/routes/identity-enroll.ts:149-170 | in every run, a commit stores the template of the averaged shots exactly if the enrolment is live, consented, with at least six shots, and the actor is its staff member; every field is given, and the enrolment is used up |
| FaceExact.CommitAnswers | server/routes/identity-enroll.ts:149-171 | the answers of a commit, in the order of its checks |
| FaceExact.ApproveStoresIff | server/face/review-service.ts:50-115 | in every run, what an approval stores in either mode, exactly when |
| FaceExact.ApproveAnswers | server/face/review-service.ts:50-115 | the answers of an approval in either mode |
| FaceExact.PhotoStoresIff | server/routes/identity-enroll.ts:119-139 | in every run, the end of a photo stores photo and pending template, under the consent of the enrolment, exactly if it shows a face |
| FaceExact.QualityIsTheShareOfPasses | server/routes/identity-enroll.ts:155-157 | the quality of a template from shots is the share of shots that pass |
| FaceExact.DeletesIff | server/face/review-service.ts:77-91 | in every run, a deletion removes every row of its user and nothing else, and a rejection does so exactly if its trimmed reason has 1 to 256 code units |
| FaceExact.TrimIsTheCore | server/face/review-service.ts:78 | trimming takes away white space only, and leaves none at either end |
| FaceExact.WhiteSpaceTable | server/face/review-service.ts:78 | what counts as white space, by code point |
| FaceExact.CodeUnits | server/face/review-service.ts:80 | a character above U+FFFF counts twice |
| FaceExact.PulledRevocations | server/face/revocation-sync.ts:104-112 | in every run, a pulled list removes every row of the users it names and leaves every other row as it is |
| FaceExact.LastRecordDecides | server/face/revocation-sync.ts:76-169 | of a pull of consents the last record of a user decides: a revoked one leaves no row, any other one its copy, with the stated defaults |
| FaceExact.RecordsTouchTheirUser | server/face/revocation-sync.ts:161-169 | a pull of consents removes a template exactly if some record of its user is revoked, and leaves users without a record as they are |
| FaceExact.StartsForTenMinutes | server/face/enrollment-session.ts:15-26 | in every run, a start drops expired enrolments and adds one for ten minutes |
| FaceExact.AskingRemovesTheExpired | server/face/enrollment-session.ts:28-46 | in every run, asking for an enrolment removes it if it has expired, and a cancel removes it |
| FaceExact.ShotIsKeptIff | server/face/enrollment-session.ts:38 | in every run, a shot is kept exactly if its enrolment is live and carries a consent and the shot has an embedding |
| FaceExact.WaitsIff | server/routes/identity-enroll.ts:72-117 | in every run, a request for a consent or a photo goes on to its await exactly for the staff member of a live enrolment, for a photo with a consent |
| FaceTables.BeforeIff | server/db.ts:216 | the order of the listing: a beginning comes first, otherwise the smaller character where two texts first differ |
| RevocationSyncExact.AsksFrom | server/face/revocation-sync.ts:95-98 | in every run, a pull asks from a positive stored position, and otherwise from one lookback before it starts |
| RevocationSyncExact.LeavesThePosition | server/face/revocation-sync.ts:132-139 | in every run, an answer leaves the position a minute before its pull started; a failure leaves it |
| RevocationSyncExact.ListedIff | server/face/revocation-sync.ts:66-112 | who is listed by an answer, and who of them counts |
| OutboxExact.SweepListsTheDueRows | server/db.ts:366 | in every run, a sweep has to send exactly the rows of its target that are due and sendable, the smallest identifier first |
| OutboxExact.SweepGoesOn | server/face/aedilis-outbox.ts:16-24 | in every run, an answer is posted for the row that was sent, and the sweep goes on to the next one it sends |
| OutboxExact.AnswerLeaves | server/db.ts:367-368 | in every run, an accepted row is gone, a failed one stays with one attempt more and its delay, and other sendable rows stay as they were |
| OutboxExact.AdvanceIsExact | server/face/aedilis-outbox.ts:17-19 | a sweep stops at the first row it sends and drops exactly the rows of its target before it |
| OutboxExact.SendableRevocationIff | server/face/consent-outbox.ts:29-41 | a payload is sent as a revocation exactly if it is an object whose userId is a text that is not empty |
| OutboxExact.DueInOrder | server/db.ts:366 | a listing has exactly the due rows, by ascending identifier |
| OutboxExact.DelayTable | server/db.ts:368 | 1, 2, 4 and 8 minutes, then 15 |
| OutboxExact.QueuedIsDue | server/db.ts:365 | in every run, a queued message has a row of its own that is due at once |

## Left out

- The clock is read once per synchronous code segment; the source reads it again within a segment.
- Float rounding, NaN and infinities: scores, similarities and overlaps are reals, and the square root is any function that is one.
- The Cernere SDK, Ed25519, AES-GCM, WebAuthn verification, SHA-256 and random sources are parameters; UUIDs, tokens and challenges are assumed fresh where the source draws them.
- CocoiruStore.CocoiruSessionStore.OnExecute: the caller's `authorize` is an answer of the environment that does not touch the store; the `current` test it hands on is IsCurrent, and what the callback does with it is the caller's.
- KioskProximityProtocol.IssuedOnlyIfRecorded: the binding a verified assertion yields is any answer of the environment, not tied to the challenges of PasskeyProtocol.
- FaceFlow.FaceVerificationFlow.Finish: frames of one session are serialised, as the kiosk page sends them; frames in flight together are not modelled there.
- MFA and identity records and flows are values in a map; that a caller could hold on to one is not modelled, except for enrolment records, which requests in FaceProtocol do hold on to. The vote object of a flow is a value.
- Base64Url.DecodeUndoesEncode: Node's decoder is modelled as skipping characters outside both alphabets; that it stops at padding inside a text is not modelled, and no such text is an encoding.
- JsonRoundTrip.ParseUndoesStringify: a number is its text; that several texts may be one floating-point number is not modelled.
- Attestation.SignedPurposeIsRead: fields that hold lone surrogates are outside the model, because text is a sequence of Unicode scalar values.
- Lone surrogates are not text: surrogate escapes read as U+FFFD, and malformed UTF-8 is replaced byte by byte.
- Nms.Suppress: the answer of numpy's sort is a parameter that may order ties in any way.
- FaceReview.FaceReviewService.Commit: how shots are averaged and sealed is a parameter; that fewer than six shots give no template is modelled.
- The expiry timers of enrolments, the facility column and the audit events of the face tables.
- The face route of an MFA session (server/routes/onsite-mfa-kiosk.ts:43-66): it completes the session with an issued face result; completion itself is modelled for any caller.
- Parsing of requests and answers beyond the fields named in the model, and the origin, staff and LAN checks of the routes.
- Credential counters, the nonce ledger, the automatic check-in replay map, RequestNonceStore, KioskAuthorization and StaffSessionStore: the same ideas in easier form.
- ACME, DNS, tokens of other services, backups, configuration, HTML and browser scripts, inference and decoding of the face models.
