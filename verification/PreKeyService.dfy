/** `KeyRepository` and `EncryptionKeyService` as they change the bundle table, proved against `PreKeyModel`. */
module PreKeyService {
  import opened Prelude
  import opened PreKeyModel

  const LOW_THRESHOLD := 10

  class KeyRepository {
    var bundles: map<string, Bundle>

    constructor ()
      ensures bundles == map[]
    {
      bundles := map[];
    }

    method UpsertBundle(user: string, bundle: Bundle)
      modifies this
      ensures bundles == Step(old(bundles), Upload(user, bundle)).0
    {
      bundles := bundles[user := bundle];
    }

    /** Hands out the first key of the column, if any, and writes the rest back. */
    method FindByUserId(user: string) returns (r: Option<(Head, Option<PreKey>)>)
      modifies this
      ensures bundles == Step(old(bundles), Fetch(user)).0
      ensures r.None? <==> user !in old(bundles)
      ensures r.Some? ==> var a := Step(old(bundles), Fetch(user)).1;
        a.Bundled? && r.value == (a.head, a.key) && a.remaining == |bundles[user].preKeys|
    {
      if user !in bundles {
        return None;
      }
      var record := bundles[user];
      var consumed := None;
      if |record.preKeys| > 0 {
        consumed := Some(record.preKeys[0]);
        bundles := bundles[user := record.(preKeys := record.preKeys[1..])];
      }
      r := Some((record.head, consumed));
    }

    /** Hands out the first key with the id asked for, if any, and writes the others back in order. */
    method ConsumePreKey(user: string, keyId: int) returns (r: Option<PreKey>)
      modifies this
      ensures (bundles, if r.Some? then Taken(r.value) else NotThere) == Step(old(bundles), Consume(user, keyId))
    {
      if user !in bundles {
        return None;
      }
      var preKeys := bundles[user].preKeys;
      if |preKeys| == 0 {
        return None;
      }
      var index := 0;
      while index < |preKeys| && preKeys[index].keyId != keyId
        invariant 0 <= index <= |preKeys|
        invariant forall k :: 0 <= k < index ==> preKeys[k].keyId != keyId
      {
        index := index + 1;
      }
      if index == |preKeys| {
        return None;
      }
      bundles := bundles[user := bundles[user].(preKeys := preKeys[..index] + preKeys[index + 1..])];
      r := Some(preKeys[index]);
    }

    method CountRemainingPreKeys(user: string) returns (n: nat)
      ensures n == if user in bundles then |bundles[user].preKeys| else 0
    {
      n := if user in bundles then |bundles[user].preKeys| else 0;
    }

    method AddPreKeys(user: string, newPreKeys: seq<PreKey>) returns (ok: bool)
      modifies this
      ensures (bundles, if ok then Done else NoBundle) == Step(old(bundles), Append(user, newPreKeys))
    {
      if user !in bundles {
        return false;
      }
      bundles := bundles[user := bundles[user].(preKeys := bundles[user].preKeys + newPreKeys)];
      ok := true;
    }
  }

  // ------------------------------------------------------------ validation

  /** What a client sends: a missing number is `None`, a missing text is empty, and so may an element of the key list be missing. */
  datatype RawPreKey = RawPreKey(keyId: Option<int>, publicKey: string)

  datatype RawSigned = RawSigned(keyId: Option<int>, publicKey: string, signature: string)

  datatype RawBundle = RawBundle(
    identityKey: string,
    signedPreKey: Option<RawSigned>,
    preKeys: Option<seq<Option<RawPreKey>>>,
    registrationId: Option<int>)

  datatype FieldError =
    | IdentityKeyMissing
    | SignedPreKeyMissing | SignedKeyIdMissing | SignedPublicKeyMissing | SignatureMissing
    | PreKeysMissing | KeyIdMissing(index: nat) | PublicKeyMissing(index: nat)
    | RegistrationIdMissing

  predicate IsKeyAt(b: RawBundle, i: nat) {
    b.preKeys.Some? && i < |b.preKeys.value| && b.preKeys.value[i].Some?
  }

  /** An element of the key list is missing, on which the validation throws. */
  predicate HasHole(b: RawBundle) {
    b.preKeys.Some? && None in b.preKeys.value
  }

  /** Whether a bundle has a given fault. */
  predicate HasFault(b: RawBundle, e: FieldError) {
    match e
    case IdentityKeyMissing => b.identityKey == ""
    case SignedPreKeyMissing => b.signedPreKey.None?
    case SignedKeyIdMissing => b.signedPreKey.Some? && b.signedPreKey.value.keyId.None?
    case SignedPublicKeyMissing => b.signedPreKey.Some? && b.signedPreKey.value.publicKey == ""
    case SignatureMissing => b.signedPreKey.Some? && b.signedPreKey.value.signature == ""
    case PreKeysMissing => b.preKeys.None? || b.preKeys.value == []
    case KeyIdMissing(i) => IsKeyAt(b, i) && b.preKeys.value[i].value.keyId.None?
    case PublicKeyMissing(i) => IsKeyAt(b, i) && b.preKeys.value[i].value.publicKey == ""
    case RegistrationIdMissing => b.registrationId.None?
  }

  /** The message says what the bundle holds, field by field. */
  ghost predicate Says(b: RawBundle, bundle: Bundle) {
    && b.identityKey == bundle.head.identityKey
    && b.signedPreKey.Some?
    && b.signedPreKey.value.keyId == Some(bundle.head.signedPreKey.keyId)
    && b.signedPreKey.value.publicKey == bundle.head.signedPreKey.publicKey
    && b.signedPreKey.value.signature == bundle.head.signedPreKey.signature
    && b.registrationId == Some(bundle.head.registrationId)
    && b.preKeys.Some? && |b.preKeys.value| == |bundle.preKeys|
    && forall i :: 0 <= i < |bundle.preKeys| ==>
         b.preKeys.value[i] == Some(RawPreKey(Some(bundle.preKeys[i].keyId), bundle.preKeys[i].publicKey))
  }

  /** A bundle that can be used: nothing empty, and at least one one-time key. */
  ghost predicate Usable(b: Bundle) {
    && b.head.identityKey != "" && b.head.signedPreKey.publicKey != "" && b.head.signedPreKey.signature != ""
    && b.preKeys != [] && forall k :: k in b.preKeys ==> k.publicKey != ""
  }

  function KeyOf(k: Option<RawPreKey>): PreKey {
    PreKey(if k.Some? && k.value.keyId.Some? then k.value.keyId.value else 0, if k.Some? then k.value.publicKey else "")
  }

  ghost predicate IsFaultless(b: RawBundle) {
    !HasHole(b) && forall e :: !HasFault(b, e)
  }

  /** The message behind each fault. */
  lemma FaultsMean(b: RawBundle, errors: seq<FieldError>)
    requires forall e :: e in errors <==> HasFault(b, e)
    ensures IdentityKeyMissing in errors <==> b.identityKey == ""
    ensures SignedPreKeyMissing in errors <==> b.signedPreKey == None
    ensures b.signedPreKey.Some? ==>
      && (SignedKeyIdMissing in errors <==> b.signedPreKey.value.keyId == None)
      && (SignedPublicKeyMissing in errors <==> b.signedPreKey.value.publicKey == "")
      && (SignatureMissing in errors <==> b.signedPreKey.value.signature == "")
    ensures RegistrationIdMissing in errors <==> b.registrationId == None
    ensures PreKeysMissing in errors <==> b.preKeys == None || b.preKeys == Some([])
    ensures b.preKeys.Some? ==> forall i: nat :: i < |b.preKeys.value| && b.preKeys.value[i].Some? ==>
      && (KeyIdMissing(i) in errors <==> b.preKeys.value[i].value.keyId == None)
      && (PublicKeyMissing(i) in errors <==> b.preKeys.value[i].value.publicKey == "")
  {
    assert HasFault(b, PreKeysMissing) <==> PreKeysMissing in errors;
  }

  lemma NoKeyFault(b: RawBundle, i: nat)
    requires IsFaultless(b) && b.preKeys.Some? && i < |b.preKeys.value|
    ensures var k := KeyOf(b.preKeys.value[i]);
      b.preKeys.value[i] == Some(RawPreKey(Some(k.keyId), k.publicKey)) && k.publicKey != ""
  {
    assert b.preKeys.value[i] in b.preKeys.value;
    assert !HasFault(b, KeyIdMissing(i)) && !HasFault(b, PublicKeyMissing(i));
  }

  /** The bundle a faultless message says. */
  function Parsed(b: RawBundle): (r: Bundle)
    requires b.preKeys.Some? && b.signedPreKey.Some? && b.signedPreKey.value.keyId.Some? && b.registrationId.Some?
  {
    var keys, s := b.preKeys.value, b.signedPreKey.value;
    Bundle(Head(b.identityKey, SignedPreKey(s.keyId.value, s.publicKey, s.signature), b.registrationId.value),
           seq(|keys|, i requires 0 <= i < |keys| => KeyOf(keys[i])))
  }

  lemma ParsedIsUsable(b: RawBundle)
    requires IsFaultless(b)
    ensures b.preKeys.Some? && b.signedPreKey.Some? && b.signedPreKey.value.keyId.Some? && b.registrationId.Some?
    ensures Usable(Parsed(b)) && Says(b, Parsed(b))
  {
    assert !HasFault(b, SignedPreKeyMissing) && !HasFault(b, PreKeysMissing) && !HasFault(b, RegistrationIdMissing);
    assert !HasFault(b, SignedKeyIdMissing) && !HasFault(b, SignedPublicKeyMissing) && !HasFault(b, SignatureMissing);
    assert !HasFault(b, IdentityKeyMissing);
    var r := Parsed(b);
    forall i | 0 <= i < |r.preKeys|
      ensures r.preKeys[i].publicKey != "" && b.preKeys.value[i] == Some(RawPreKey(Some(r.preKeys[i].keyId), r.preKeys[i].publicKey))
    {
      NoKeyFault(b, i);
    }
  }

  lemma UsableIsFaultless(b: RawBundle, r: Bundle)
    requires Usable(r) && Says(b, r)
    ensures IsFaultless(b)
  {
    forall e
      ensures !HasFault(b, e)
    {
      if e.PublicKeyMissing? && e.index < |r.preKeys| {
        assert r.preKeys[e.index] in r.preKeys;
      }
    }
  }

  /** One message says one bundle. */
  lemma SaysOne(b: RawBundle, r: Bundle, s: Bundle)
    requires Says(b, r) && Says(b, s)
    ensures r == s
  {
    assert r.head.signedPreKey == s.head.signedPreKey;
    forall i | 0 <= i < |r.preKeys|
      ensures r.preKeys[i] == s.preKeys[i]
    {
      assert b.preKeys.value[i] == Some(RawPreKey(Some(r.preKeys[i].keyId), r.preKeys[i].publicKey));
      assert b.preKeys.value[i] == Some(RawPreKey(Some(s.preKeys[i].keyId), s.preKeys[i].publicKey));
    }
  }

  /** A message has no fault and no missing element if and only if it says a usable bundle. */
  lemma FaultlessIsUsable(b: RawBundle)
    ensures IsFaultless(b) <==> exists r :: Usable(r) && Says(b, r)
  {
    if IsFaultless(b) {
      ParsedIsUsable(b);
    }
    if r :| Usable(r) && Says(b, r) {
      UsableIsFaultless(b, r);
    }
  }

  ghost predicate NoRepeats(errors: seq<FieldError>) {
    forall i, j :: 0 <= i < j < |errors| ==> errors[i] != errors[j]
  }

  lemma JoinedOnce(a: seq<FieldError>, b: seq<FieldError>)
    requires NoRepeats(a) && NoRepeats(b) && forall e :: e in a ==> e !in b
    ensures NoRepeats(a + b)
  {
    forall i, j | 0 <= i < j < |a + b|
      ensures (a + b)[i] != (a + b)[j]
    {
      if i < |a| <= j {
        assert a[i] in a && b[j - |a|] in b;
      }
    }
  }

  predicate OfPreKeys(e: FieldError) {
    e.PreKeysMissing? || e.KeyIdMissing? || e.PublicKeyMissing?
  }

  predicate OfHead(e: FieldError) {
    !OfPreKeys(e) && !e.RegistrationIdMissing?
  }

  function IndexOf(e: FieldError): nat {
    if e.KeyIdMissing? || e.PublicKeyMissing? then e.index else 0
  }

  // --------------------------------------------------------------- service

  datatype KeyError = InvalidBundle(fields: seq<FieldError>) | Thrown | EmptyPreKeys | BundleNotFound

  class EncryptionKeyService {
    const repo: KeyRepository

    constructor ()
      ensures repo.bundles == map[] && fresh(repo)
    {
      repo := new KeyRepository();
    }

    /** Every fault of the bundle, each once, or nothing when the validation throws. */
    method ValidateBundle(b: RawBundle) returns (r: Option<seq<FieldError>>)
      ensures r.None? <==> HasHole(b)
      ensures r.Some? ==> NoRepeats(r.value) && forall e :: e in r.value <==> HasFault(b, e)
    {
      var errors := HeadErrors(b);
      var more := PreKeyErrors(b);
      if more.None? {
        return None;
      }
      JoinedOnce(errors, more.value);
      errors := errors + more.value;
      if b.registrationId.None? {
        JoinedOnce(errors, [RegistrationIdMissing]);
        errors := errors + [RegistrationIdMissing];
      }
      r := Some(errors);
    }

    method HeadErrors(b: RawBundle) returns (errors: seq<FieldError>)
      ensures forall e :: e in errors <==> OfHead(e) && HasFault(b, e)
      ensures NoRepeats(errors)
    {
      errors := [];
      if b.identityKey == "" {
        errors := errors + [IdentityKeyMissing];
      }
      if b.signedPreKey.None? {
        errors := errors + [SignedPreKeyMissing];
      } else {
        if b.signedPreKey.value.keyId.None? {
          errors := errors + [SignedKeyIdMissing];
        }
        if b.signedPreKey.value.publicKey == "" {
          errors := errors + [SignedPublicKeyMissing];
        }
        if b.signedPreKey.value.signature == "" {
          errors := errors + [SignatureMissing];
        }
      }
    }

    method PreKeyErrors(b: RawBundle) returns (r: Option<seq<FieldError>>)
      ensures r.None? <==> HasHole(b)
      ensures r.Some? ==> NoRepeats(r.value) && forall e :: e in r.value <==> OfPreKeys(e) && HasFault(b, e)
    {
      if b.preKeys.None? || |b.preKeys.value| == 0 {
        return Some([PreKeysMissing]);
      }
      var errors: seq<FieldError> := [];
      var keys := b.preKeys.value;
      for i := 0 to |keys|
        invariant forall k :: 0 <= k < i ==> keys[k].Some?
        invariant forall e :: e in errors <==> OfPreKeys(e) && HasFault(b, e) && IndexOf(e) < i
        invariant NoRepeats(errors)
      {
        if keys[i].None? {
          assert None in keys;
          return None;
        }
        ghost var before := errors;
        assert KeyIdMissing(i) !in before && PublicKeyMissing(i) !in before;
        if keys[i].value.keyId.None? {
          errors := errors + [KeyIdMissing(i)];
        }
        if keys[i].value.publicKey == "" {
          errors := errors + [PublicKeyMissing(i)];
        }
      }
      r := Some(errors);
    }

    method UploadBundle(user: string, b: RawBundle) returns (r: Result<(), KeyError>)
      modifies repo
      ensures r.Ok? <==> exists bundle :: Usable(bundle) && Says(b, bundle)
      ensures r.Ok? ==> user in repo.bundles && Usable(repo.bundles[user]) && Says(b, repo.bundles[user])
      ensures r.Ok? ==> repo.bundles == Step(old(repo.bundles), Upload(user, repo.bundles[user])).0
      ensures r.Ok? ==> repo.bundles == old(repo.bundles)[user := repo.bundles[user]]
      ensures r.Err? ==> repo.bundles == old(repo.bundles) && (r.error == Thrown <==> HasHole(b))
      ensures r.Err? && !HasHole(b) ==> r.error.InvalidBundle? && forall e :: e in r.error.fields <==> HasFault(b, e)
    {
      var errors := ValidateBundle(b);
      FaultlessIsUsable(b);
      if errors.None? {
        return Err(Thrown);
      }
      if |errors.value| > 0 {
        assert errors.value[0] in errors.value;
        return Err(InvalidBundle(errors.value));
      }
      ParsedIsUsable(b);
      var bundle := Parsed(b);
      repo.UpsertBundle(user, bundle);
      r := Ok(());
    }

    /** The answer carries how many keys remain and whether those are fewer than ten. */
    method FetchBundle(user: string) returns (r: Result<(Answer, bool), KeyError>)
      modifies repo
      ensures repo.bundles == Step(old(repo.bundles), Fetch(user)).0
      ensures r == if user !in old(repo.bundles) then Err(BundleNotFound)
                   else Ok((Step(old(repo.bundles), Fetch(user)).1, |repo.bundles[user].preKeys| < 10))
    {
      var found := repo.FindByUserId(user);
      if found.None? {
        return Err(BundleNotFound);
      }
      var remaining := repo.CountRemainingPreKeys(user);
      var lowPreKeys := remaining < LOW_THRESHOLD;
      r := Ok((Bundled(found.value.0, found.value.1, remaining), lowPreKeys));
    }

    method AddPreKeys(user: string, preKeys: seq<PreKey>) returns (r: Result<(), KeyError>)
      modifies repo
      ensures repo.bundles == Step(old(repo.bundles), Append(user, preKeys)).0
      ensures r == if preKeys == [] then Err(EmptyPreKeys)
                   else if user !in old(repo.bundles) then Err(BundleNotFound) else Ok(())
    {
      if |preKeys| == 0 {
        assert user in repo.bundles ==> repo.bundles[user].preKeys + [] == repo.bundles[user].preKeys;
        return Err(EmptyPreKeys);
      }
      var ok := repo.AddPreKeys(user, preKeys);
      r := if ok then Ok(()) else Err(BundleNotFound);
    }
  }
}
