/** The gateway's own face data: templates, photos and copies of consents, one row per user. */
module FaceTables {
  import opened Common
  import opened FaceMatcher

  datatype TemplateState = Pending | Active | Revoked

  /** An embedding or a photo as it is stored; only its key opens it. */
  datatype Sealed = Sealed(keyId: string, blob: string)

  datatype Template = Template(
    sealed: Sealed,
    modelId: string,
    quality: real,
    version: int,
    state: TemplateState,
    consentId: Option<string>,
    enrolledBy: Option<string>,
    enrolledAt: int,
    revokedAt: Option<int>)

  datatype Photo = Photo(sealed: Sealed, contentType: string, consentId: Option<string>, createdAt: int)

  datatype Consent = Consent(consentId: string, policyVersion: string, at: int, revokedAt: Option<int>)

  datatype Tables = Tables(templates: map<string, Template>, photos: map<string, Photo>, consents: map<string, Consent>)

  datatype RowCounts = RowCounts(templates: nat, photos: nat, consents: nat)

  const CONSENT_MAX_AGE_MS: int := 365 * 24 * 60 * 60 * 1000

  /** A revocation at instant 0 does not count as one. */
  predicate IsRevoked(c: Consent) {
    c.revokedAt.Some? && c.revokedAt.value != 0
  }

  predicate IsFaceConsentUsable(consent: Option<Consent>, enrolledAt: int, now: int) {
    if consent.Some? && IsRevoked(consent.value) then false
    else now - (if consent.Some? then consent.value.at else enrolledAt) <= CONSENT_MAX_AGE_MS
  }

  /** Of a consent that is at most a year old, a revocation makes it unusable exactly if it is not at
      instant 0. */
  lemma RevocationCountsIff(c: Consent, enrolledAt: int, now: int)
    requires c.revokedAt.Some? && now - c.at <= CONSENT_MAX_AGE_MS
    ensures !IsFaceConsentUsable(Some(c), enrolledAt, now) <==> c.revokedAt.value != 0
  {
  }

  function ConsentOf(t: Tables, user: string): Option<Consent> {
    if user in t.consents then Some(t.consents[user]) else None
  }

  /** All three rows of a user go together. */
  function Purge(t: Tables, user: string): Tables {
    Tables(Without(t.templates, user), Without(t.photos, user), Without(t.consents, user))
  }

  function PurgeAll(t: Tables, users: set<string>): Tables {
    Tables(t.templates - users, t.photos - users, t.consents - users)
  }

  predicate HasRows(t: Tables, user: string) {
    user in t.templates || user in t.photos || user in t.consents
  }

  /** What a template row becomes when its state is set. */
  function InState(row: Template, state: TemplateState, at: int): Template {
    row.(state := state, revokedAt := if state.Revoked? then Some(at) else None)
  }

  // ---------- the roster ----------

  predicate InRoster(t: Tables, open: Sealed -> Option<Vector>, modelId: string, now: int, user: string) {
    user in t.templates
    && var row := t.templates[user];
       row.state.Active? && row.modelId == modelId
       && IsFaceConsentUsable(ConsentOf(t, user), row.enrolledAt, now) && open(row.sealed).Some?
  }

  /** Byte order of the database's text columns; code point order, since UTF-8 keeps it. */
  predicate Before(a: string, b: string) {
    if b == "" then false
    else if a == "" then true
    else if a[0] == b[0] then Before(a[1..], b[1..])
    else a[0] < b[0]
  }

  ghost predicate Ascending(s: seq<string>) {
    forall i, j :: 0 <= i < j < |s| ==> Before(s[i], s[j])
  }

  /** One text comes before another exactly if it is shorter and begins it, or has the smaller character where
      they first differ. */
  lemma {:induction false} BeforeIff(a: string, b: string)
    ensures Before(a, b) <==> exists k: nat :: DiffersAt(a, b, k)
  {
    if a == "" || b == "" || a[0] != b[0] {
      assert Before(a, b) ==> DiffersAt(a, b, 0);
    } else {
      BeforeIff(a[1..], b[1..]);
      if k: nat :| DiffersAt(a[1..], b[1..], k) {
        assert a[..k + 1] == [a[0]] + a[1..][..k] && b[..k + 1] == [b[0]] + b[1..][..k];
        assert DiffersAt(a, b, k + 1);
      }
      if k: nat :| DiffersAt(a, b, k) {
        assert a[1..][..k - 1] == a[..k][1..] && b[1..][..k - 1] == b[..k][1..];
        assert DiffersAt(a[1..], b[1..], k - 1);
      }
    }
  }

  ghost predicate DiffersAt(a: string, b: string, k: nat) {
    k <= |a| && k < |b| && a[..k] == b[..k] && (k < |a| ==> a[k] < b[k])
  }

  lemma {:induction false} BeforeIsTotal(a: string, b: string)
    ensures a == b || Before(a, b) || Before(b, a)
  {
    if a != "" && b != "" && a[0] == b[0] {
      BeforeIsTotal(a[1..], b[1..]);
      assert a[1..] == b[1..] ==> a == b by { assert a == [a[0]] + a[1..] && b == [b[0]] + b[1..]; }
    }
  }

  lemma {:induction false} BeforeIsTransitive(a: string, b: string, c: string)
    requires Before(a, b) && Before(b, c)
    ensures Before(a, c)
  {
    if a != "" && a[0] == b[0] == c[0] { BeforeIsTransitive(a[1..], b[1..], c[1..]); }
  }

  lemma {:induction false} BeforeIsStrict(a: string, b: string)
    requires Before(a, b)
    ensures a != b && !Before(b, a)
  {
    if a != "" && a[0] == b[0] { BeforeIsStrict(a[1..], b[1..]); }
  }

  lemma {:induction false} HasFirst(users: set<string>) returns (first: string)
    requires users != {}
    ensures first in users && forall u :: u in users && u != first ==> Before(first, u)
    decreases |users|
  {
    var x :| x in users;
    first := x;
    if users != {x} {
      var y := HasFirst(users - {x});
      BeforeIsTotal(x, y);
      if Before(y, x) {
        first := y;
      } else {
        forall u | u in users && u != x ensures Before(x, u) {
          if u != y { BeforeIsTransitive(x, y, u); }
        }
      }
    }
  }

  /** An ascending listing is determined by its users. */
  lemma {:induction false} ListingIsUnique(a: seq<string>, b: seq<string>)
    requires Ascending(a) && Ascending(b) && forall u :: u in a <==> u in b
    ensures a == b
  {
    if a != [] || b != [] {
      assert (a != [] ==> a[0] in b) && (b != [] ==> b[0] in a);
      if a[0] != b[0] {
        var i :| 0 <= i < |b| && b[i] == a[0];
        var j :| 0 <= j < |a| && a[j] == b[0];
        BeforeIsStrict(a[0], b[0]);
      }
      RestHasTheRest(a);
      RestHasTheRest(b);
      ListingIsUnique(a[1..], b[1..]);
    }
  }

  lemma RestHasTheRest(a: seq<string>)
    requires Ascending(a) && a != []
    ensures Ascending(a[1..]) && forall u :: u in a[1..] <==> u in a && u != a[0]
  {
    forall u | u in a[1..] ensures u in a && u != a[0] {
      var i :| 1 <= i < |a| && a[i] == u;
      BeforeIsStrict(a[0], a[i]);
    }
  }

  class FaceDatabase {
    var templates: map<string, Template>
    var photos: map<string, Photo>
    var consents: map<string, Consent>

    constructor ()
      ensures Rows() == Tables(map[], map[], map[])
    {
      templates := map[];
      photos := map[];
      consents := map[];
    }

    ghost function Rows(): Tables
      reads this
    {
      Tables(templates, photos, consents)
    }

    method UpsertFaceTemplate(user: string, row: Template)
      modifies this`templates
      ensures templates == old(templates)[user := row.(revokedAt := None)]
    {
      templates := templates[user := row.(revokedAt := None)];
    }

    method SetFaceTemplateState(user: string, state: TemplateState, at: int) returns (changed: bool)
      modifies this`templates
      ensures changed <==> user in old(templates)
      ensures templates ==
                if changed then old(templates)[user := InState(old(templates)[user], state, at)] else old(templates)
    {
      changed := user in templates;
      if changed { templates := templates[user := InState(templates[user], state, at)]; }
    }

    method UpsertFacePhoto(user: string, row: Photo)
      modifies this`photos
      ensures photos == old(photos)[user := row]
    {
      photos := photos[user := row];
    }

    method UpsertFaceConsentCopy(user: string, row: Consent)
      modifies this`consents
      ensures consents == old(consents)[user := row]
    {
      consents := consents[user := row];
    }

    method CountFaceSubjectRows(user: string) returns (n: RowCounts)
      ensures n.templates == (if user in templates then 1 else 0)
      ensures n.photos == (if user in photos then 1 else 0)
      ensures n.consents == (if user in consents then 1 else 0)
    {
      n := RowCounts(if user in templates then 1 else 0,
                     if user in photos then 1 else 0,
                     if user in consents then 1 else 0);
    }

    /** Deletes all rows of a user and says what there was. */
    method PurgeFaceSubject(user: string) returns (n: RowCounts)
      modifies this
      ensures Rows() == Purge(old(Rows()), user)
      ensures n.templates != 0 <==> user in old(templates)
      ensures n.photos != 0 <==> user in old(photos)
      ensures n.consents != 0 <==> user in old(consents)
    {
      n := CountFaceSubjectRows(user);
      templates := Without(templates, user);
      photos := Without(photos, user);
      consents := Without(consents, user);
    }

    /** The users whose template is active, in order. */
    method ListActive() returns (users: seq<string>)
      ensures Ascending(users)
      ensures forall u :: u in users <==> u in templates && templates[u].state.Active?
    {
      users := [];
      var todo := set u | u in templates && templates[u].state.Active?;
      while todo != {}
        invariant todo <= templates.Keys && forall u :: u in todo ==> templates[u].state.Active?
        invariant forall u :: u in users || u in todo <==> u in templates && templates[u].state.Active?
        invariant Ascending(users) && forall i, u :: 0 <= i < |users| && u in todo ==> Before(users[i], u)
        decreases todo
      {
        ghost var first := HasFirst(todo);
        var next :| next in todo && forall u :: u in todo && u != next ==> Before(next, u);
        users := users + [next];
        todo := todo - {next};
      }
    }
  }

  /** The roster for recognition: exactly the users with an active template of this model that opens
      and a usable consent, in order, each with the embedding of that template. */
  method BuildFaceRoster(db: FaceDatabase, open: Sealed -> Option<Vector>, modelId: string, now: int)
    returns (roster: Roster)
    ensures Ascending(roster.userIds) && |roster.embeddings| == |roster.userIds|
    ensures forall u :: u in roster.userIds <==> InRoster(db.Rows(), open, modelId, now, u)
    ensures forall i :: 0 <= i < |roster.userIds| ==>
              InRoster(db.Rows(), open, modelId, now, roster.userIds[i])
              && open(db.templates[roster.userIds[i]].sealed) == Some(roster.embeddings[i])
  {
    var rows := db.ListActive();
    var userIds, embeddings := [], [];
    ghost var from: seq<nat> := [];
    for k := 0 to |rows|
      invariant |from| == |userIds| == |embeddings|
      invariant forall i :: 0 <= i < |from| ==> from[i] < k && rows[from[i]] == userIds[i]
      invariant forall i, j :: 0 <= i < j < |from| ==> from[i] < from[j]
      invariant forall i :: 0 <= i < |userIds| ==> InRoster(db.Rows(), open, modelId, now, userIds[i])
      invariant forall i :: 0 <= i < k && InRoster(db.Rows(), open, modelId, now, rows[i]) ==> rows[i] in userIds
      invariant forall i :: 0 <= i < |userIds| ==> open(db.templates[userIds[i]].sealed) == Some(embeddings[i])
    {
      var user := rows[k];
      assert user in rows;
      var row := db.templates[user];
      if row.modelId != modelId { continue; }
      var consent := if user in db.consents then Some(db.consents[user]) else None;
      if !IsFaceConsentUsable(consent, row.enrolledAt, now) { continue; }
      var embedding := open(row.sealed);
      if embedding.Some? {
        userIds, embeddings, from := userIds + [user], embeddings + [embedding.value], from + [k];
      }
    }
    roster := Roster(userIds, embeddings);
  }
}
