/** Who is recognised after any history of writes to the face tables. */
module FaceHistory {
  import opened Common
  import opened FaceMatcher
  import opened FaceTables

  /** One write to the tables: a copied consent; a photo with the pending template taken from it; an
      active template from shots (commit and re-enrolment); a promotion; a deletion, be it a rejection,
      a deletion at the kiosk, a pulled revocation or a pulled consent that is revoked. */
  datatype Event =
    | ConsentCopied(user: string, consent: Consent)
    | PhotoTaken(user: string, template: Template, photo: Photo)
    | Enrolled(user: string, template: Template)
    | Promoted(user: string)
    | Purged(user: string)

  /** What the writers store: pending from photos, active from shots, never a revoked consent. */
  predicate Valid(e: Event) {
    match e
    case ConsentCopied(_, consent) => !IsRevoked(consent)
    case PhotoTaken(_, template, _) => template.state.Pending? && template.revokedAt.None?
    case Enrolled(_, template) => template.state.Active? && template.revokedAt.None?
    case _ => true
  }

  function Apply(t: Tables, e: Event): Tables {
    match e
    case ConsentCopied(u, consent) => t.(consents := t.consents[u := consent])
    case PhotoTaken(u, template, photo) => t.(templates := t.templates[u := template], photos := t.photos[u := photo])
    case Enrolled(u, template) => t.(templates := t.templates[u := template])
    case Promoted(u) =>
      if u in t.templates then t.(templates := t.templates[u := InState(t.templates[u], Active, 0)]) else t
    case Purged(u) => Purge(t, u)
  }

  function Replay(t: Tables, es: seq<Event>): Tables {
    if es == [] then t else Apply(Replay(t, es[..|es| - 1]), es[|es| - 1])
  }

  const EMPTY: Tables := Tables(map[], map[], map[])

  // ---------- reading the history backwards ----------

  predicate Stores(e: Event, u: string) {
    (e.PhotoTaken? || e.Enrolled?) && e.user == u
  }

  /** The last template stored for `u`, at `k`, has not been replaced or deleted since. */
  ghost predicate LastStored(es: seq<Event>, u: string, k: nat) {
    k < |es| && Stores(es[k], u) && forall j :: k < j < |es| ==> !Stores(es[j], u) && es[j] != Purged(u)
  }

  ghost predicate LastConsent(es: seq<Event>, u: string, k: nat) {
    && k < |es| && es[k].ConsentCopied? && es[k].user == u
    && forall j :: k < j < |es| ==> !(es[j].ConsentCopied? && es[j].user == u) && es[j] != Purged(u)
  }

  ghost predicate HasConsent(es: seq<Event>, u: string) {
    exists c: nat :: LastConsent(es, u, c)
  }

  ghost predicate PromotedAfter(es: seq<Event>, u: string, k: nat) {
    exists j :: k < j < |es| && es[j] == Promoted(u)
  }

  /** The template stored at `k` came from shots or was promoted later. */
  ghost predicate Activated(es: seq<Event>, u: string, k: nat)
    requires k < |es|
  {
    es[k].Enrolled? || PromotedAfter(es, u, k)
  }

  /** The year runs from the last consent copied or, when there is none, from the enrolment. */
  ghost predicate WithinAYear(es: seq<Event>, u: string, k: nat, now: int)
    requires k < |es| && Stores(es[k], u)
  {
    && (forall c: nat :: LastConsent(es, u, c) ==> now <= es[c].consent.at + CONSENT_MAX_AGE_MS)
    && (!HasConsent(es, u) ==> now <= es[k].template.enrolledAt + CONSENT_MAX_AGE_MS)
  }

  ghost predicate MayBeRecognised(es: seq<Event>, open: Sealed -> Option<Vector>, modelId: string, now: int, u: string)
  {
    exists k: nat :: LastStored(es, u, k) && IsCurrent(es, open, modelId, now, u, k)
  }

  ghost predicate IsCurrent(es: seq<Event>, open: Sealed -> Option<Vector>, modelId: string, now: int, u: string,
                            k: nat)
    requires k < |es| && Stores(es[k], u)
  {
    && Activated(es, u, k) && es[k].template.modelId == modelId && open(es[k].template.sealed).Some?
    && WithinAYear(es, u, k, now)
  }

  ghost predicate AllValid(es: seq<Event>) {
    forall k :: 0 <= k < |es| ==> Valid(es[k])
  }

  // ---------- the tables say what the history says ----------

  lemma ActivatedBefore(es: seq<Event>, u: string, k: nat)
    requires k < |es| - 1
    ensures Activated(es, u, k) <==> Activated(es[..|es| - 1], u, k) || es[|es| - 1] == Promoted(u)
  {
    var n, before := |es| - 1, es[..|es| - 1];
    if PromotedAfter(before, u, k) {
      var j :| k < j < |before| && before[j] == Promoted(u);
      assert es[j] == Promoted(u);
    } else {
      forall j | k < j < n ensures es[j] != Promoted(u) { assert before[j] == es[j]; }
    }
  }

  lemma {:induction false} TemplateIsTheLastStored(es: seq<Event>, u: string, k: nat)
    requires AllValid(es) && LastStored(es, u, k)
    ensures var t := Replay(EMPTY, es).templates;
            u in t && t[u] == (if Activated(es, u, k) then es[k].template.(state := Active) else es[k].template)
  {
    var n := |es| - 1;
    assert Valid(es[k]);
    if k < n {
      TemplateIsTheLastStored(es[..n], u, k);
      ActivatedBefore(es, u, k);
      hide Activated;
    }
  }

  lemma {:induction false} StoredWhenPresent(es: seq<Event>, u: string) returns (k: nat)
    requires u in Replay(EMPTY, es).templates
    ensures LastStored(es, u, k)
  {
    var n := |es| - 1;
    if Stores(es[n], u) {
      k := n;
    } else {
      k := StoredWhenPresent(es[..n], u);
    }
  }

  lemma {:induction false} ConsentIsTheLastCopied(es: seq<Event>, u: string, c: nat)
    requires LastConsent(es, u, c)
    ensures var t := Replay(EMPTY, es).consents; u in t && t[u] == es[c].consent
  {
    var n := |es| - 1;
    if c < n {
      assert LastConsent(es[..n], u, c);
      ConsentIsTheLastCopied(es[..n], u, c);
    }
  }

  lemma {:induction false} CopiedWhenPresent(es: seq<Event>, u: string) returns (c: nat)
    requires u in Replay(EMPTY, es).consents
    ensures LastConsent(es, u, c)
  {
    var n := |es| - 1;
    if es[n].ConsentCopied? && es[n].user == u {
      c := n;
    } else {
      c := CopiedWhenPresent(es[..n], u);
    }
  }

  /** At most one position stores the last template, or copies the last consent. */
  lemma LastIsUnique(es: seq<Event>, u: string, j: nat, k: nat)
    ensures LastStored(es, u, j) && LastStored(es, u, k) ==> j == k
    ensures LastConsent(es, u, j) && LastConsent(es, u, k) ==> j == k
  {
  }

  lemma UsableIsWithinAYear(es: seq<Event>, u: string, k: nat, now: int)
    requires AllValid(es) && LastStored(es, u, k)
    ensures var consent := ConsentOf(Replay(EMPTY, es), u);
            IsFaceConsentUsable(consent, es[k].template.enrolledAt, now) <==> WithinAYear(es, u, k, now)
  {
    hide Replay;
    if u in Replay(EMPTY, es).consents {
      var c := CopiedWhenPresent(es, u);
      ConsentIsTheLastCopied(es, u, c);
      assert HasConsent(es, u) && Valid(es[c]);
      forall d: nat | LastConsent(es, u, d) ensures d == c { LastIsUnique(es, u, c, d); }
    } else {
      forall c: nat | LastConsent(es, u, c) ensures false { ConsentIsTheLastCopied(es, u, c); }
    }
  }

  /** After any history a user is recognised exactly when the last template stored for them was never
      replaced or deleted, came from shots or was promoted, is of this model and opens, and no more
      than a year has passed since the consent. */
  lemma RecognisedIff(es: seq<Event>, open: Sealed -> Option<Vector>, modelId: string, now: int, u: string)
    requires AllValid(es)
    ensures InRoster(Replay(EMPTY, es), open, modelId, now, u) <==> MayBeRecognised(es, open, modelId, now, u)
  {
    hide Replay;
    var t := Replay(EMPTY, es);
    if u in t.templates {
      var k := StoredWhenPresent(es, u);
      TemplateIsTheLastStored(es, u, k);
      UsableIsWithinAYear(es, u, k, now);
      assert Valid(es[k]);
      assert InRoster(t, open, modelId, now, u) <==> IsCurrent(es, open, modelId, now, u, k);
      forall j: nat | LastStored(es, u, j) ensures j == k { LastIsUnique(es, u, j, k); }
    } else {
      forall k: nat | LastStored(es, u, k) ensures false { TemplateIsTheLastStored(es, u, k); }
    }
  }

  /** A deleted user stays out, through any history that stores no new template for them. */
  lemma DeletedUntilStoredAgain(before: seq<Event>, after: seq<Event>, open: Sealed -> Option<Vector>, modelId: string,
                                now: int, u: string)
    requires AllValid(before) && AllValid(after)
    requires forall k :: 0 <= k < |after| ==> !Stores(after[k], u)
    ensures !InRoster(Replay(EMPTY, before + [Purged(u)] + after), open, modelId, now, u)
  {
    hide Replay;
    var es := before + [Purged(u)] + after;
    assert es[|before|] == Purged(u);
    RecognisedIff(es, open, modelId, now, u);
    forall k | |before| < k < |es| ensures !Stores(es[k], u) {
      assert k == |before| || es[k] == after[k - |before| - 1];
    }
    forall k: nat | LastStored(es, u, k) ensures false { }
  }

  /** A deletion does not end an enrolment in progress: shots stored afterwards are recognised for a
      year from the enrolment, though the consent went with the deletion. */
  lemma EnrolledAfterDeletion(before: seq<Event>, template: Template, open: Sealed -> Option<Vector>, now: int,
                              u: string)
    requires AllValid(before) && Valid(Enrolled(u, template)) && open(template.sealed).Some?
    ensures var t := Replay(EMPTY, before + [Purged(u), Enrolled(u, template)]);
            InRoster(t, open, template.modelId, now, u) <==> now <= template.enrolledAt + CONSENT_MAX_AGE_MS
  {
    hide Replay;
    var es := before + [Purged(u), Enrolled(u, template)];
    var n := |before|;
    assert es[n] == Purged(u) && es[n + 1] == Enrolled(u, template);
    RecognisedIff(es, open, template.modelId, now, u);
    forall c: nat | LastConsent(es, u, c) ensures false { }
    forall k: nat | LastStored(es, u, k) ensures k == n + 1 { LastIsUnique(es, u, k, n + 1); }
    assert LastStored(es, u, n + 1);
  }

  /** Without writes the roster only shrinks. */
  lemma RosterShrinks(t: Tables, open: Sealed -> Option<Vector>, modelId: string, now: int, later: int, u: string)
    requires now <= later && InRoster(t, open, modelId, later, u)
    ensures InRoster(t, open, modelId, now, u)
  {
  }

  /** No photo is ever left without its user's template, and no copied consent is revoked. */
  lemma {:induction false} NoPhotoAlone(es: seq<Event>, u: string)
    requires AllValid(es)
    ensures var t := Replay(EMPTY, es);
            && (u in t.photos ==> u in t.templates)
            && (u in t.consents ==> !IsRevoked(t.consents[u]))
            && (u in t.templates ==> t.templates[u].revokedAt.None? && !t.templates[u].state.Revoked?)
  {
    if es != [] {
      NoPhotoAlone(es[..|es| - 1], u);
      assert Valid(es[|es| - 1]);
    }
  }

  /** Replaying a history in two parts. */
  lemma {:induction false} ReplayInParts(t: Tables, a: seq<Event>, b: seq<Event>)
    ensures Replay(t, a + b) == Replay(Replay(t, a), b)
  {
    if b == [] {
      assert a + b == a;
    } else {
      var n := |b| - 1;
      assert (a + b)[..|a + b| - 1] == a + b[..n];
      ReplayInParts(t, a, b[..n]);
    }
  }
}
