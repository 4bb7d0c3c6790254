// Service account tokens: only the hash of a secret is kept, and the secret is
// shown once when it is issued.
module Tokens {
  import opened Text

  datatype Token = Token(id: string, name: string, hash: string, createdAt: int, lastUsedAt: int, expiresAt: int,
                         creator: string, active: bool)

  predicate Expired(t: Token, at: int) {
    t.expiresAt > 0 && at > t.expiresAt
  }

  datatype Lookup = Found(token: Token) | TooOld | Unknown

  /******* What each operation does to the list *******/

  // The position of the first token with an id, or the length of the list.
  function Position(ts: seq<Token>, id: string): (i: nat)
    ensures i <= |ts|
    ensures i < |ts| ==> ts[i].id == id
    ensures forall k :: 0 <= k < i ==> ts[k].id != id
  {
    if ts == [] || ts[0].id == id then 0 else 1 + Position(ts[1..], id)
  }

  function Created(ts: seq<Token>, t: Token): seq<Token> {
    ts + [t]
  }

  function Deleted(ts: seq<Token>, id: string): seq<Token> {
    var i := Position(ts, id);
    if i < |ts| then ts[..i] + ts[i + 1..] else ts
  }

  function Rotated(ts: seq<Token>, id: string, hash: string, expiresAt: int, now: int): seq<Token> {
    var i := Position(ts, id);
    if i < |ts| then ts[i := ts[i].(hash := hash, expiresAt := expiresAt, createdAt := now, lastUsedAt := 0)] else ts
  }

  function Used(ts: seq<Token>, id: string, now: int): seq<Token> {
    var i := Position(ts, id);
    if i < |ts| then ts[i := ts[i].(lastUsedAt := now)] else ts
  }

  // The first token with the hash decides, even when it is expired.
  function Find(ts: seq<Token>, hash: string, now: int): Lookup {
    if ts == [] then Unknown
    else if ts[0].hash == hash then (if Expired(ts[0], now) then TooOld else Found(ts[0]))
    else Find(ts[1..], hash, now)
  }

  class TokenTable {
    var tokens: seq<Token>

    constructor ()
      ensures tokens == []
    {
      tokens := [];
    }

    // id and secret are freshly drawn; only the secret's hash is stored.
    method CreateToken(name: string, creator: string, expiresAt: int, now: int, id: string, secret: string,
                       hash: string -> string)
      returns (t: Token)
      modifies this
      ensures t == Token(id, name, hash(secret), now, 0, expiresAt, creator, true)
      ensures tokens == Created(old(tokens), t)
    {
      t := Token(id, name, hash(secret), now, 0, expiresAt, creator, true);
      tokens := tokens + [t];
    }

    method GetTokenByHash(hash: string, now: int) returns (r: Lookup)
      ensures r == Find(tokens, hash, now)
    {
      assert tokens[0..] == tokens;
      for i := 0 to |tokens|
        invariant Find(tokens, hash, now) == Find(tokens[i..], hash, now)
      {
        assert tokens[i..][0] == tokens[i] && tokens[i..][1..] == tokens[i + 1..];
        if tokens[i].hash == hash {
          return if Expired(tokens[i], now) then TooOld else Found(tokens[i]);
        }
      }
      return Unknown;
    }

    method IndexOfId(id: string) returns (i: nat)
      ensures i == Position(tokens, id)
    {
      i := 0;
      assert tokens[0..] == tokens;
      while i < |tokens| && tokens[i].id != id
        invariant i <= |tokens| && Position(tokens, id) == i + Position(tokens[i..], id)
      {
        assert tokens[i..][0] == tokens[i] && tokens[i..][1..] == tokens[i + 1..];
        i := i + 1;
      }
    }

    method DeleteToken(id: string) returns (found: bool)
      modifies this
      ensures found <==> exists t <- old(tokens) :: t.id == id
      ensures tokens == Deleted(old(tokens), id)
    {
      var i := IndexOfId(id);
      if i == |tokens| {
        return false;
      }
      assert tokens[i] in tokens;
      tokens := tokens[..i] + tokens[i + 1..];
      return true;
    }

    method RotateToken(id: string, expiresAt: int, now: int, secret: string, hash: string -> string) returns (found: bool)
      modifies this
      ensures found <==> exists t <- old(tokens) :: t.id == id
      ensures tokens == Rotated(old(tokens), id, hash(secret), expiresAt, now)
    {
      var i := IndexOfId(id);
      if i == |tokens| {
        return false;
      }
      assert tokens[i] in tokens;
      tokens := tokens[i := tokens[i].(hash := hash(secret), expiresAt := expiresAt, createdAt := now, lastUsedAt := 0)];
      return true;
    }

    method MarkTokenUsed(id: string, now: int)
      modifies this
      ensures tokens == Used(old(tokens), id, now)
    {
      var i := IndexOfId(id);
      if i < |tokens| {
        tokens := tokens[i := tokens[i].(lastUsedAt := now)];
      }
    }
  }

  /******* The life cycle, over whole histories *******/

  datatype Event =
    | Create(id: string, secret: string, expiresAt: int, now: int)
    | Rotate(id: string, secret: string, expiresAt: int, now: int)
    | Delete(id: string)
    | Use(id: string, now: int)

  function Apply(ts: seq<Token>, e: Event, hash: string -> string): seq<Token> {
    match e
    case Create(id, secret, expiresAt, now) => Created(ts, Token(id, "", hash(secret), now, 0, expiresAt, "", true))
    case Rotate(id, secret, expiresAt, now) => Rotated(ts, id, hash(secret), expiresAt, now)
    case Delete(id) => Deleted(ts, id)
    case Use(id, now) => Used(ts, id, now)
  }

  // The last event of a history is its latest.
  function Play(es: seq<Event>, hash: string -> string): seq<Token> {
    if es == [] then [] else Apply(Play(es[..|es| - 1], hash), es[|es| - 1], hash)
  }

  predicate Accepts(ts: seq<Token>, secret: string, t: int, hash: string -> string) {
    Find(ts, hash(secret), t).Found?
  }

  ghost predicate Injective(hash: string -> string) {
    forall x, y :: hash(x) == hash(y) ==> x == y
  }

  predicate Issues(e: Event) {
    e.Create? || e.Rotate?
  }

  // Secrets never repeat, and neither do the ids of created tokens.
  predicate FreshDraws(es: seq<Event>) {
    && (forall i, j :: 0 <= i < j < |es| && Issues(es[i]) && Issues(es[j]) ==> es[i].secret != es[j].secret)
    && (forall i, j :: 0 <= i < j < |es| && es[i].Create? && es[j].Create? ==> es[i].id != es[j].id)
  }

  datatype Issue = Issue(secret: string, expiresAt: int)

  // The latest secret issued for an id, unless the id has been deleted: read off
  // the history alone. Rotating an id that does not exist issues nothing.
  function Latest(es: seq<Event>, id: string): Option<Issue> {
    if es == [] then None
    else
      var e, before := es[|es| - 1], Latest(es[..|es| - 1], id);
      if e.id != id then before
      else
        match e
        case Create(_, secret, expiresAt, _) => Some(Issue(secret, expiresAt))
        case Rotate(_, secret, expiresAt, _) => if before.Some? then Some(Issue(secret, expiresAt)) else None
        case Delete(_) => None
        case Use(_, _) => before
  }

  predicate DistinctIds(ts: seq<Token>) {
    forall i, j :: 0 <= i < j < |ts| ==> ts[i].id != ts[j].id
  }

  predicate HasId(ts: seq<Token>, id: string) {
    exists i :: 0 <= i < |ts| && ts[i].id == id
  }

  predicate Carries(t: Token, issue: Option<Issue>, hash: string -> string) {
    issue.Some? && t.hash == hash(issue.value.secret) && t.expiresAt == issue.value.expiresAt
  }

  // The list holds one token for each id with a latest issue, and no other.
  ghost predicate Mirrors(ts: seq<Token>, es: seq<Event>, hash: string -> string) {
    && DistinctIds(ts)
    && (forall t <- ts :: Carries(t, Latest(es, t.id), hash))
    && (forall id :: Latest(es, id).Some? ==> HasId(ts, id))
  }

  lemma DeletedTokens(ts: seq<Token>, id: string)
    requires DistinctIds(ts)
    ensures var ts' := Deleted(ts, id);
            && DistinctIds(ts') && !HasId(ts', id)
            && (forall t <- ts' :: t in ts)
            && (forall other :: other != id && HasId(ts, other) ==> HasId(ts', other))
  {
    var i, ts' := Position(ts, id), Deleted(ts, id);
    forall other | other != id && HasId(ts, other)
      ensures HasId(ts', other)
    {
      var k :| 0 <= k < |ts| && ts[k].id == other;
      assert ts'[if k > i then k - 1 else k].id == other;
    }
  }

  lemma ReplacedToken(ts: seq<Token>, i: nat, t: Token)
    requires DistinctIds(ts) && i < |ts| && t.id == ts[i].id
    ensures var ts' := ts[i := t];
            && DistinctIds(ts')
            && (forall x <- ts' :: x == t || (x in ts && x.id != t.id))
            && (forall id :: HasId(ts, id) ==> HasId(ts', id))
  {
    var ts' := ts[i := t];
    forall id | HasId(ts, id)
      ensures HasId(ts', id)
    {
      var k :| 0 <= k < |ts| && ts[k].id == id;
      assert ts'[k].id == id;
    }
  }

  lemma AddedToken(ts: seq<Token>, t: Token)
    requires DistinctIds(ts) && !HasId(ts, t.id)
    ensures var ts' := Created(ts, t);
            DistinctIds(ts') && forall id :: HasId(ts, id) || id == t.id ==> HasId(ts', id)
  {
    var ts' := Created(ts, t);
    forall id | HasId(ts, id) || id == t.id
      ensures HasId(ts', id)
    {
      var k := if id == t.id then |ts| else var k :| 0 <= k < |ts| && ts[k].id == id; k;
      assert ts'[k].id == id;
    }
  }

  lemma {:induction false} LatestWasIssued(es: seq<Event>, id: string)
    requires Latest(es, id).Some?
    ensures exists i :: 0 <= i < |es| && Issues(es[i]) && es[i].id == id && es[i].secret == Latest(es, id).value.secret
    ensures exists i :: 0 <= i < |es| && es[i].Create? && es[i].id == id
  {
    var before, e := es[..|es| - 1], es[|es| - 1];
    if e.id == id && e.Create? {
      assert Issues(e);
    } else {
      LatestWasIssued(before, id);
      var i :| 0 <= i < |before| && Issues(before[i]) && before[i].id == id
               && before[i].secret == Latest(before, id).value.secret;
      var j :| 0 <= j < |before| && before[j].Create? && before[j].id == id;
      assert es[i] == before[i] && es[j] == before[j];
    }
  }

  lemma NoTokenWithoutIssue(ts: seq<Token>, es: seq<Event>, id: string, hash: string -> string)
    requires Mirrors(ts, es, hash) && Latest(es, id).None?
    ensures !HasId(ts, id)
  {
    forall i | 0 <= i < |ts|
      ensures ts[i].id != id
    {
      assert Carries(ts[i], Latest(es, ts[i].id), hash);
    }
  }

  lemma CreateMirrors(ts: seq<Token>, es: seq<Event>, e: Event, hash: string -> string)
    requires Mirrors(ts, es, hash) && e.Create? && Latest(es, e.id).None?
    ensures Mirrors(Apply(ts, e, hash), es + [e], hash)
  {
    assert (es + [e])[..|es|] == es;
    NoTokenWithoutIssue(ts, es, e.id, hash);
    AddedToken(ts, Token(e.id, "", hash(e.secret), e.now, 0, e.expiresAt, "", true));
  }

  lemma DeleteMirrors(ts: seq<Token>, es: seq<Event>, e: Event, hash: string -> string)
    requires Mirrors(ts, es, hash) && e.Delete?
    ensures Mirrors(Apply(ts, e, hash), es + [e], hash)
  {
    assert (es + [e])[..|es|] == es;
    DeletedTokens(ts, e.id);
    assert forall t <- Deleted(ts, e.id) :: t.id != e.id;
    if Latest(es, e.id).None? {
      NoTokenWithoutIssue(ts, es, e.id, hash);
    }
  }

  lemma ChangeMirrors(ts: seq<Token>, es: seq<Event>, e: Event, hash: string -> string)
    requires Mirrors(ts, es, hash) && (e.Rotate? || e.Use?)
    ensures Mirrors(Apply(ts, e, hash), es + [e], hash)
  {
    assert (es + [e])[..|es|] == es;
    if Latest(es, e.id).None? {
      NoTokenWithoutIssue(ts, es, e.id, hash);
    }
    var i := Position(ts, e.id);
    if i < |ts| {
      assert Carries(ts[i], Latest(es, e.id), hash);
      ReplacedToken(ts, i, Apply(ts, e, hash)[i]);
    } else {
      assert !HasId(ts, e.id);
    }
  }

  lemma ApplyMirrors(ts: seq<Token>, es: seq<Event>, e: Event, hash: string -> string)
    requires Mirrors(ts, es, hash)
    requires e.Create? ==> Latest(es, e.id).None?
    ensures Mirrors(Apply(ts, e, hash), es + [e], hash)
  {
    if e.Create? {
      CreateMirrors(ts, es, e, hash);
    } else if e.Delete? {
      DeleteMirrors(ts, es, e, hash);
    } else {
      ChangeMirrors(ts, es, e, hash);
    }
  }

  lemma {:induction false} HistoryMirrored(es: seq<Event>, hash: string -> string)
    requires FreshDraws(es)
    ensures Mirrors(Play(es, hash), es, hash)
  {
    if es != [] {
      var before, e := es[..|es| - 1], es[|es| - 1];
      HistoryMirrored(before, hash);
      if e.Create? && Latest(before, e.id).Some? {
        LatestWasIssued(before, e.id);
      }
      ApplyMirrors(Play(before, hash), before, e, hash);
      assert before + [e] == es;
    }
  }

  lemma {:induction false} FindFirst(ts: seq<Token>, hash: string, now: int, k: nat)
    requires k < |ts| && ts[k].hash == hash && forall i :: 0 <= i < k ==> ts[i].hash != hash
    ensures Find(ts, hash, now) == if Expired(ts[k], now) then TooOld else Found(ts[k])
  {
    if k > 0 {
      FindFirst(ts[1..], hash, now, k - 1);
    }
  }

  lemma {:induction false} FoundIsThere(ts: seq<Token>, hash: string, now: int)
    requires Find(ts, hash, now).Found?
    ensures var t := Find(ts, hash, now).token; t in ts && t.hash == hash && !Expired(t, now)
  {
    if ts[0].hash != hash {
      FoundIsThere(ts[1..], hash, now);
    }
  }

  lemma OneIdPerSecret(es: seq<Event>, id1: string, id2: string)
    requires FreshDraws(es) && Latest(es, id1).Some? && Latest(es, id2).Some?
    requires Latest(es, id1).value.secret == Latest(es, id2).value.secret
    ensures id1 == id2
  {
    LatestWasIssued(es, id1);
    LatestWasIssued(es, id2);
    var i :| 0 <= i < |es| && Issues(es[i]) && es[i].id == id1 && es[i].secret == Latest(es, id1).value.secret;
    var j :| 0 <= j < |es| && Issues(es[j]) && es[j].id == id2 && es[j].secret == Latest(es, id2).value.secret;
  }

  predicate NotExpired(issue: Issue, t: int) {
    !(issue.expiresAt > 0 && t > issue.expiresAt)
  }

  // The secret is the latest one issued for id, and not expired at t.
  predicate Current(es: seq<Event>, id: string, secret: string, t: int) {
    Latest(es, id).Some? && Latest(es, id).value.secret == secret && NotExpired(Latest(es, id).value, t)
  }

  lemma AcceptedIsCurrent(ts: seq<Token>, es: seq<Event>, secret: string, t: int, hash: string -> string)
    requires Mirrors(ts, es, hash) && Injective(hash) && Accepts(ts, secret, t, hash)
    ensures exists id :: Current(es, id, secret, t)
  {
    FoundIsThere(ts, hash(secret), t);
    var token := Find(ts, hash(secret), t).token;
    assert Carries(token, Latest(es, token.id), hash);
    assert Current(es, token.id, secret, t);
  }

  lemma CurrentIsAccepted(ts: seq<Token>, es: seq<Event>, id: string, secret: string, t: int, hash: string -> string)
    requires Mirrors(ts, es, hash) && FreshDraws(es) && Injective(hash) && Current(es, id, secret, t)
    ensures Accepts(ts, secret, t, hash)
  {
    assert HasId(ts, id);
    var k :| 0 <= k < |ts| && ts[k].id == id;
    assert Carries(ts[k], Latest(es, id), hash);
    forall i | 0 <= i < k
      ensures ts[i].hash != hash(secret)
    {
      assert Carries(ts[i], Latest(es, ts[i].id), hash);
      if ts[i].hash == hash(secret) {
        OneIdPerSecret(es, ts[i].id, id);
      }
    }
    FindFirst(ts, hash(secret), t, k);
  }

  // After any history a secret is accepted at time t exactly when it is the
  // latest one issued for an id that is not deleted, and not expired at t.
  lemma AcceptedExactly(es: seq<Event>, secret: string, t: int, hash: string -> string)
    requires FreshDraws(es) && Injective(hash)
    ensures Accepts(Play(es, hash), secret, t, hash) <==> exists id :: Current(es, id, secret, t)
  {
    var ts := Play(es, hash);
    HistoryMirrored(es, hash);
    if Accepts(ts, secret, t, hash) {
      AcceptedIsCurrent(ts, es, secret, t, hash);
    }
    forall id | Current(es, id, secret, t)
      ensures Accepts(ts, secret, t, hash)
    {
      CurrentIsAccepted(ts, es, id, secret, t, hash);
    }
  }

  // No id has this secret as its latest.
  ghost predicate Retired(es: seq<Event>, secret: string) {
    forall id :: Latest(es, id).Some? ==> Latest(es, id).value.secret != secret
  }

  lemma {:induction false} RetiredForGood(es: seq<Event>, more: seq<Event>, secret: string)
    requires FreshDraws(es + more) && Retired(es, secret)
    requires exists i :: 0 <= i < |es| && Issues(es[i]) && es[i].secret == secret
    ensures Retired(es + more, secret)
    decreases |more|
  {
    if more == [] {
      assert es + more == es;
    } else {
      var less, e := more[..|more| - 1], more[|more| - 1];
      assert (es + more)[..|es + more| - 1] == es + less && (es + more)[|es + more| - 1] == e;
      assert forall i :: 0 <= i < |es + less| ==> (es + less)[i] == (es + more)[i];
      RetiredForGood(es, less, secret);
      var i :| 0 <= i < |es| && Issues(es[i]) && es[i].secret == secret;
      assert (es + more)[i] == es[i];
      assert Issues(e) ==> e.secret != secret;
    }
  }

  // A secret that was rotated out or deleted is never accepted again.
  lemma RetiredNeverAccepted(es: seq<Event>, more: seq<Event>, secret: string, t: int, hash: string -> string)
    requires FreshDraws(es + more) && Injective(hash) && Retired(es, secret)
    requires exists i :: 0 <= i < |es| && Issues(es[i]) && es[i].secret == secret
    ensures !Accepts(Play(es + more, hash), secret, t, hash)
  {
    RetiredForGood(es, more, secret);
    AcceptedExactly(es + more, secret, t, hash);
  }

  // Rotating or deleting a token retires its secret, and leaves every other
  // token's secret where it was.
  lemma RotateOrDeleteRetires(es: seq<Event>, e: Event, secret: string, other: string)
    requires FreshDraws(es + [e]) && (e.Rotate? || e.Delete?) && other != e.id
    requires Latest(es, e.id).Some? && Latest(es, e.id).value.secret == secret
    ensures Retired(es + [e], secret)
    ensures Latest(es + [e], other) == Latest(es, other)
  {
    assert (es + [e])[..|es|] == es;
    assert forall i :: 0 <= i < |es| ==> es[i] == (es + [e])[i];
    assert FreshDraws(es);
    forall id | Latest(es + [e], id).Some?
      ensures Latest(es + [e], id).value.secret != secret
    {
      LatestWasIssued(es, e.id);
      if id == e.id {
        var i :| 0 <= i < |es| && Issues(es[i]) && es[i].secret == secret;
        assert (es + [e])[i] == es[i] && (es + [e])[|es|] == e;
      } else if Latest(es, id).value.secret == secret {
        OneIdPerSecret(es, id, e.id);
      }
    }
  }

  /******* Single calls *******/

  // Rotating replaces hash, expiry and times of the first token with the id, and
  // using it its time of use; nothing else changes.
  lemma RotatedToken(ts: seq<Token>, id: string, hash: string, expiresAt: int, now: int, i: nat)
    requires i < |ts|
    ensures |Rotated(ts, id, hash, expiresAt, now)| == |ts|
    ensures Rotated(ts, id, hash, expiresAt, now)[i] ==
              if ts[i].id == id && forall j :: 0 <= j < i ==> ts[j].id != id then
                Token(id, ts[i].name, hash, now, 0, expiresAt, ts[i].creator, ts[i].active)
              else ts[i]
  {
  }

  lemma UsedToken(ts: seq<Token>, id: string, now: int, i: nat)
    requires i < |ts|
    ensures |Used(ts, id, now)| == |ts|
    ensures Used(ts, id, now)[i] ==
              if ts[i].id == id && forall j :: 0 <= j < i ==> ts[j].id != id then
                Token(id, ts[i].name, ts[i].hash, ts[i].createdAt, now, ts[i].expiresAt, ts[i].creator, ts[i].active)
              else ts[i]
  {
  }

  // The secret is the latest one issued for id.
  predicate IsLatest(es: seq<Event>, id: string, secret: string) {
    Latest(es, id).Some? && Latest(es, id).value.secret == secret
  }

  lemma {:induction false} FindUnknown(ts: seq<Token>, hash: string, now: int)
    ensures Find(ts, hash, now).Unknown? <==> forall t <- ts :: t.hash != hash
  {
    if ts != [] {
      FindUnknown(ts[1..], hash, now);
      assert ts == [ts[0]] + ts[1..];
    }
  }

  // A lookup that fails says "not found" exactly when the secret is not the latest
  // of any id, and otherwise "expired".
  lemma UnknownExactly(es: seq<Event>, secret: string, t: int, hash: string -> string)
    requires FreshDraws(es) && Injective(hash)
    ensures Find(Play(es, hash), hash(secret), t).Unknown? <==> !exists id :: IsLatest(es, id, secret)
  {
    var ts := Play(es, hash);
    HistoryMirrored(es, hash);
    FindUnknown(ts, hash(secret), t);
    forall id | IsLatest(es, id, secret)
      ensures exists token <- ts :: token.hash == hash(secret)
    {
      assert HasId(ts, id);
      var k :| 0 <= k < |ts| && ts[k].id == id;
      assert Carries(ts[k], Latest(es, id), hash) && ts[k] in ts;
    }
    if token :| token in ts && token.hash == hash(secret) {
      assert Carries(token, Latest(es, token.id), hash);
      assert IsLatest(es, token.id, secret);
    }
  }
}
