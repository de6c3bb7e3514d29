/** The frame-by-frame identification: the roster is built from the tables, then scanned. */
module FaceRecognition {
  import opened Common
  import opened FaceMatcher
  import opened FaceTables
  import opened FaceHistory

  /** `c` is the score of the valid entry number `i`. */
  ghost predicate IsScoreOf(sqrt: real -> real, embedding: Vector, roster: Roster, i: nat, c: Candidate) {
    && i < |roster.embeddings| && HasUser(roster, i)
    && c == Candidate(roster.userIds[i], Similarity(sqrt, embedding, roster.embeddings[i]))
  }

  lemma {:induction false} CandidatesComeFromTheRoster(sqrt: real -> real, embedding: Vector, roster: Roster, n: nat,
                                                       c: Candidate)
    requires n <= |roster.embeddings| && c in Candidates(sqrt, embedding, roster, n)
    ensures exists i: nat :: i < n && IsScoreOf(sqrt, embedding, roster, i, c)
  {
    if !IsScoreOf(sqrt, embedding, roster, n - 1, c) {
      CandidatesComeFromTheRoster(sqrt, embedding, roster, n - 1, c);
    }
  }

  /** The score of a user is the similarity to the template the history left for them. */
  ghost predicate ScoresAs(t: Tables, open: Sealed -> Option<Vector>, sqrt: real -> real, embedding: Vector,
                           user: string, score: real)
  {
    user in t.templates
    && var stored := open(t.templates[user].sealed);
       stored.Some? && score == Similarity(sqrt, embedding, stored.value)
  }

  /** Whoever is identified after any history is a user that the history allows, scored against the
      template it left; no other allowed user scores higher, and when nobody is identified nobody
      with a name is allowed. */
  method Identify(db: FaceDatabase, ghost es: seq<Event>, open: Sealed -> Option<Vector>, sqrt: real -> real,
                  modelId: string,
                  now: int, embedding: Vector) returns (best: Option<FaceMatch>)
    requires IsSquareRoot(sqrt) && AllValid(es) && db.Rows() == Replay(EMPTY, es)
    ensures best.Some? ==>
              && MayBeRecognised(es, open, modelId, now, best.value.userId)
              && ScoresAs(db.Rows(), open, sqrt, embedding, best.value.userId, best.value.score)
    ensures forall u, score ::
              u != "" && MayBeRecognised(es, open, modelId, now, u)
              && ScoresAs(db.Rows(), open, sqrt, embedding, u, score) ==>
                best.Some? && score <= best.value.score
  {
    var roster := BuildFaceRoster(db, open, modelId, now);
    best := FindFaceMatch(sqrt, embedding, roster);
    hide Similarity;
    hide Scan;
    hide Replay;
    ghost var c := Candidates(sqrt, embedding, roster, |roster.embeddings|);
    if best.Some? {
      WinnerIsInTheRoster(sqrt, embedding, roster, best.value);
      ghost var i :| 0 <= i < |roster.userIds| && roster.userIds[i] == best.value.userId
                       && best.value.score == Similarity(sqrt, embedding, roster.embeddings[i]);
      RecognisedIff(es, open, modelId, now, best.value.userId);
    }
    forall u, score
      | u != "" && MayBeRecognised(es, open, modelId, now, u) && ScoresAs(db.Rows(), open, sqrt, embedding, u, score)
      ensures best.Some? && score <= best.value.score
    {
      RecognisedIff(es, open, modelId, now, u);
      ghost var i :| 0 <= i < |roster.userIds| && roster.userIds[i] == u;
      EntryIsACandidate(sqrt, embedding, roster, |roster.embeddings|, i);
      assert Candidate(u, score) in c;
    }
  }

  lemma WinnerIsInTheRoster(sqrt: real -> real, embedding: Vector, roster: Roster, m: FaceMatch)
    requires |roster.userIds| == |roster.embeddings|
    requires IsBest(Candidates(sqrt, embedding, roster, |roster.embeddings|), Some(m))
    ensures exists i :: 0 <= i < |roster.userIds| && roster.userIds[i] == m.userId
              && m.score == Similarity(sqrt, embedding, roster.embeddings[i])
  {
    var c := Candidates(sqrt, embedding, roster, |roster.embeddings|);
    var k: nat :| IsBestAt(c, m, k);
    CandidatesComeFromTheRoster(sqrt, embedding, roster, |roster.embeddings|, c[k]);
  }

  lemma {:induction false} EntryIsACandidate(sqrt: real -> real, embedding: Vector, roster: Roster, n: nat, i: nat)
    requires i < n <= |roster.embeddings| && HasUser(roster, i)
    ensures var score := Similarity(sqrt, embedding, roster.embeddings[i]);
            Candidate(roster.userIds[i], score) in Candidates(sqrt, embedding, roster, n)
  {
    if i < n - 1 {
      EntryIsACandidate(sqrt, embedding, roster, n - 1, i);
    } else {
      var c := Candidates(sqrt, embedding, roster, n);
      assert c[|c| - 1] == Candidate(roster.userIds[i], Similarity(sqrt, embedding, roster.embeddings[i]));
    }
  }
}
