/**
 The audit log's metadata sanitizer: a copy of a JSON tree in which the value
 under every sensitive key is replaced by a marker.
 */
module Sanitizer {
  import opened Prelude

  /** `Opaque` is whatever is copied as it is: numbers, dates, class instances, nothing at all. */
  datatype Json =
    | Str(text: string)
    | Opaque(id: string)
    | Arr(items: seq<Json>)
    | Obj(fields: seq<Field>)

  datatype Field = Field(key: string, value: Json)

  const MARKER := Str("[REDACTED]")

  /**
   Lower case, as far as it can end in an ASCII letter: the Kelvin sign U+212A
   is the one other character whose lower case is one.
   */
  function Lower(c: char): char {
    if 'A' <= c <= 'Z' then c - 'A' + 'a' else if c == '\U{212A}' then 'k' else c
  }

  function ToLower(s: string): string {
    seq(|s|, i requires 0 <= i < |s| => Lower(s[i]))
  }

  const SENSITIVE_KEYS: set<string> := {
    "password", "passwordhash", "token", "accesstoken", "refreshtoken", "jwttoken", "jwt", "secret",
    "identitykey", "signedprekey", "prekey", "prekeys", "privatekey", "publickey", "encryptionkey", "encryptioniv",
    "ciphertext", "plaintext", "messagecontent", "content", "filecontent", "buffer"
  }

  predicate IsSensitive(key: string) {
    ToLower(key) in SENSITIVE_KEYS
  }

  // -------------------------------------------------- what is sensitive

  /** The same character but for case; the Kelvin sign is a capital k. */
  predicate SameCharacter(c: char, d: char) {
    SameLetter(c, d) || (c == '\U{212A}' && d == 'k')
  }

  predicate SameButForCase(key: string, name: string) {
    |key| == |name| && forall i :: 0 <= i < |key| ==> SameCharacter(key[i], name[i])
  }

  predicate IsSmall(s: string) {
    forall i :: 0 <= i < |s| ==> 'a' <= s[i] <= 'z'
  }

  lemma NamesAreSmall(name: string)
    requires name in SENSITIVE_KEYS
    ensures IsSmall(name)
  {
  }

  lemma LowerExact(c: char, d: char)
    requires 'a' <= d <= 'z'
    ensures Lower(c) == d <==> SameCharacter(c, d)
  {
  }

  lemma ToLowerExact(key: string, name: string)
    requires IsSmall(name)
    ensures ToLower(key) == name <==> SameButForCase(key, name)
  {
    if |key| == |name| {
      forall i | 0 <= i < |key|
        ensures ToLower(key)[i] == name[i] <==> SameCharacter(key[i], name[i])
      {
        LowerExact(key[i], name[i]);
      }
    }
  }

  /** A key is sensitive if and only if it is one of the listed names but for case. */
  lemma SensitiveExact(key: string)
    ensures IsSensitive(key) <==> exists name :: name in SENSITIVE_KEYS && SameButForCase(key, name)
  {
    if IsSensitive(key) {
      NamesAreSmall(ToLower(key));
      ToLowerExact(key, ToLower(key));
    }
    forall name | name in SENSITIVE_KEYS
      ensures ToLower(key) == name <==> SameButForCase(key, name)
    {
      NamesAreSmall(name);
      ToLowerExact(key, name);
    }
  }

  /** The names as they are documented, with capitals, are sensitive. */
  lemma DocumentedNamesAreSensitive(key: string)
    requires key in {
      "password", "passwordHash", "token", "jwt", "secret", "accessToken", "refreshToken", "jwtToken",
      "identityKey", "signedPreKey", "preKey", "preKeys", "privateKey", "publicKey", "encryptionKey", "encryptionIv",
      "ciphertext", "plaintext", "messageContent", "content", "fileContent", "buffer"}
    ensures IsSensitive(key)
  {
    assert ToLower("passwordHash") == "passwordhash";
    assert ToLower("accessToken") == "accesstoken";
    assert ToLower("refreshToken") == "refreshtoken";
    assert ToLower("jwtToken") == "jwttoken";
    assert ToLower("identityKey") == "identitykey";
    assert ToLower("signedPreKey") == "signedprekey";
    assert ToLower("preKey") == "prekey";
    assert ToLower("preKeys") == "prekeys";
    assert ToLower("privateKey") == "privatekey";
    assert ToLower("publicKey") == "publickey";
    assert ToLower("encryptionKey") == "encryptionkey";
    assert ToLower("encryptionIv") == "encryptioniv";
    assert ToLower("messageContent") == "messagecontent";
    assert ToLower("fileContent") == "filecontent";
    if key in SENSITIVE_KEYS {
      NamesAreSmall(key);
      ToLowerExact(key, key);
    }
  }

  /** Assigning to this key of an object literal sets its prototype and creates no key. */
  const PROTO_KEY := "__proto__"

  // ------------------------------------------------------- specification

  /** The redacted copy. */
  function Sanitize(j: Json): Json
    decreases j
  {
    match j
    case Arr(items) => Arr(SanitizeAll(items))
    case Obj(fields) => Obj(SanitizeFields(fields))
    case _ => j
  }

  function SanitizeAll(items: seq<Json>): (r: seq<Json>)
    ensures |r| == |items|
    decreases items
  {
    if items == [] then [] else SanitizeAll(items[..|items| - 1]) + [Sanitize(items[|items| - 1])]
  }

  function SanitizeField(f: Field): Field
    decreases f
  {
    Field(f.key, if IsSensitive(f.key) then MARKER else Sanitize(f.value))
  }

  function SanitizeFields(fields: seq<Field>): seq<Field>
    decreases fields
  {
    if fields == [] then []
    else
      var n := |fields| - 1;
      SanitizeFields(fields[..n]) + if fields[n].key == PROTO_KEY then [] else [SanitizeField(fields[n])]
  }

  lemma ProtoKeyIsNotSensitive()
    ensures !IsSensitive(PROTO_KEY)
  {
    assert ToLower(PROTO_KEY) == "__proto__";
  }

  // ----------------------------------------------------- noninterference

  /** Equal but for what lies under sensitive keys, and for prototype keys. */
  ghost predicate LowEqual(a: Json, b: Json)
    decreases a
  {
    match a
    case Arr(items) => b.Arr? && LowEqualAll(items, b.items)
    case Obj(fields) => b.Obj? && LowEqualFields(fields, b.fields)
    case _ => a == b
  }

  ghost predicate LowEqualAll(a: seq<Json>, b: seq<Json>)
    decreases a
  {
    && |a| == |b|
    && (a == [] || (LowEqual(a[|a| - 1], b[|b| - 1]) && LowEqualAll(a[..|a| - 1], b[..|b| - 1])))
  }

  predicate EndsInProto(fields: seq<Field>) {
    fields != [] && fields[|fields| - 1].key == PROTO_KEY
  }

  ghost predicate LowEqualFields(a: seq<Field>, b: seq<Field>)
    decreases a, b
  {
    if EndsInProto(a) then LowEqualFields(a[..|a| - 1], b)
    else if EndsInProto(b) then LowEqualFields(a, b[..|b| - 1])
    else if a == [] || b == [] then a == b
    else
      var f, g := a[|a| - 1], b[|b| - 1];
      && f.key == g.key
      && (IsSensitive(f.key) || LowEqual(f.value, g.value))
      && LowEqualFields(a[..|a| - 1], b[..|b| - 1])
  }

  /**
   Main result: two trees have the same redacted copy if and only if they differ
   only beneath sensitive keys. So the copy tells nothing about what is beneath
   them, and everything about the rest.
   */
  lemma {:induction false} NoninterferenceExact(a: Json, b: Json)
    ensures LowEqual(a, b) <==> Sanitize(a) == Sanitize(b)
    decreases a
  {
    if a.Arr? && b.Arr? {
      AllExact(a.items, b.items);
    } else if a.Obj? && b.Obj? {
      FieldsExact(a.fields, b.fields);
    }
  }

  lemma {:induction false} AllExact(a: seq<Json>, b: seq<Json>)
    ensures LowEqualAll(a, b) <==> SanitizeAll(a) == SanitizeAll(b)
    decreases a
  {
    if a != [] && |a| == |b| {
      var n := |a| - 1;
      NoninterferenceExact(a[n], b[n]);
      AllExact(a[..n], b[..n]);
      SameEnds(SanitizeAll(a[..n]), Sanitize(a[n]), SanitizeAll(b[..n]), Sanitize(b[n]));
    }
  }

  lemma SameEnds<T>(s: seq<T>, x: T, t: seq<T>, y: T)
    ensures s + [x] == t + [y] <==> s == t && x == y
  {
    if s + [x] == t + [y] {
      assert (s + [x])[..|s|] == s && (t + [y])[..|t|] == t;
      assert (s + [x])[|s|] == x && (t + [y])[|t|] == y;
    }
  }

  lemma {:induction false} FieldsExact(a: seq<Field>, b: seq<Field>)
    ensures LowEqualFields(a, b) <==> SanitizeFields(a) == SanitizeFields(b)
    decreases a, b
  {
    if EndsInProto(a) {
      FieldsExact(a[..|a| - 1], b);
    } else if EndsInProto(b) {
      FieldsExact(a, b[..|b| - 1]);
    } else if a != [] && b != [] {
      var f, g := a[|a| - 1], b[|b| - 1];
      NoninterferenceExact(f.value, g.value);
      FieldsExact(a[..|a| - 1], b[..|b| - 1]);
      SameEnds(SanitizeFields(a[..|a| - 1]), SanitizeField(f), SanitizeFields(b[..|b| - 1]), SanitizeField(g));
    }
  }

  // -------------------------------------------------------- fixed points

  /** Nothing left to redact. */
  ghost predicate Clean(j: Json)
    decreases j
  {
    match j
    case Arr(items) => AllClean(items)
    case Obj(fields) => FieldsClean(fields)
    case _ => true
  }

  ghost predicate AllClean(items: seq<Json>)
    decreases items
  {
    items == [] || (Clean(items[|items| - 1]) && AllClean(items[..|items| - 1]))
  }

  ghost predicate FieldsClean(fields: seq<Field>)
    decreases fields
  {
    fields == [] || (CleanField(fields[|fields| - 1]) && FieldsClean(fields[..|fields| - 1]))
  }

  ghost predicate CleanField(f: Field)
    decreases f
  {
    f.key != PROTO_KEY && (if IsSensitive(f.key) then f.value == MARKER else Clean(f.value))
  }

  lemma {:induction false} CopyIsClean(j: Json)
    ensures Clean(Sanitize(j))
    decreases j
  {
    match j
    case Arr(items) => CopiesAreClean(items);
    case Obj(fields) => CopiedFieldsAreClean(fields);
    case _ =>
  }

  lemma {:induction false} CopiesAreClean(items: seq<Json>)
    ensures AllClean(SanitizeAll(items))
    decreases items
  {
    if items != [] {
      var n := |items| - 1;
      CopiesAreClean(items[..n]);
      CopyIsClean(items[n]);
      assert SanitizeAll(items)[..n] == SanitizeAll(items[..n]);
    }
  }

  lemma FieldsCleanPushed(front: seq<Field>, f: Field)
    ensures FieldsClean(front + [f]) <==> FieldsClean(front) && CleanField(f)
  {
    assert (front + [f])[..|front|] == front;
  }

  lemma {:induction false} CopiedFieldsAreClean(fields: seq<Field>)
    ensures FieldsClean(SanitizeFields(fields))
    decreases fields
  {
    if fields != [] {
      var n := |fields| - 1;
      CopiedFieldsAreClean(fields[..n]);
      CopyIsClean(fields[n].value);
      FieldsCleanPushed(SanitizeFields(fields[..n]), SanitizeField(fields[n]));
      assert SanitizeFields(fields[..n]) + [] == SanitizeFields(fields[..n]);
    }
  }

  /** A tree is its own redacted copy if and only if nothing in it is left to redact. */
  lemma {:induction false} FixedPointExact(j: Json)
    ensures Sanitize(j) == j <==> Clean(j)
    decreases j
  {
    match j
    case Arr(items) => AllFixed(items);
    case Obj(fields) => FieldsFixed(fields);
    case _ =>
  }

  lemma {:induction false} AllFixed(items: seq<Json>)
    ensures SanitizeAll(items) == items <==> AllClean(items)
    decreases items
  {
    if items != [] {
      var n := |items| - 1;
      FixedPointExact(items[n]);
      AllFixed(items[..n]);
      assert items == items[..n] + [items[n]];
      SameEnds(SanitizeAll(items[..n]), Sanitize(items[n]), items[..n], items[n]);
    }
  }

  lemma {:induction false} FewerFields(fields: seq<Field>)
    ensures |SanitizeFields(fields)| <= |fields|
    decreases fields
  {
    if fields != [] {
      FewerFields(fields[..|fields| - 1]);
    }
  }

  lemma {:induction false} FieldsFixed(fields: seq<Field>)
    ensures SanitizeFields(fields) == fields <==> FieldsClean(fields)
    decreases fields
  {
    if fields != [] {
      var n, f := |fields| - 1, fields[|fields| - 1];
      FewerFields(fields[..n]);
      FixedPointExact(f.value);
      FieldsFixed(fields[..n]);
      assert fields == fields[..n] + [f];
      SameEnds(SanitizeFields(fields[..n]), SanitizeField(f), fields[..n], f);
    }
  }

  lemma Idempotent(j: Json)
    ensures Sanitize(Sanitize(j)) == Sanitize(j)
  {
    CopyIsClean(j);
    FixedPointExact(Sanitize(j));
  }

  // --------------------------------------------------------------- paths

  datatype Step = Key(name: string) | Index(i: nat)

  function FieldAt(fields: seq<Field>, key: string): Option<Json> {
    if fields == [] then None
    else if fields[|fields| - 1].key == key then Some(fields[|fields| - 1].value)
    else FieldAt(fields[..|fields| - 1], key)
  }

  function Child(j: Json, s: Step): Option<Json> {
    match s
    case Key(k) => if j.Obj? then FieldAt(j.fields, k) else None
    case Index(i) => if j.Arr? && i < |j.items| then Some(j.items[i]) else None
  }

  /** What lies at the end of a path, if it leads anywhere. */
  function At(j: Json, path: seq<Step>): Option<Json>
    decreases |path|
  {
    if path == [] then Some(j)
    else
      var c := Child(j, path[0]);
      if c.None? then None else At(c.value, path[1..])
  }

  predicate IsClear(s: Step) {
    s.Key? ==> s.name != PROTO_KEY && !IsSensitive(s.name)
  }

  predicate ClearPath(path: seq<Step>) {
    forall s :: s in path ==> IsClear(s)
  }

  lemma FieldAtPushed(front: seq<Field>, f: Field, key: string)
    ensures FieldAt(front + [f], key) == if f.key == key then Some(f.value) else FieldAt(front, key)
  {
    assert (front + [f])[..|front|] == front;
  }

  lemma {:induction false} FieldAtCopy(fields: seq<Field>, key: string)
    ensures FieldAt(SanitizeFields(fields), key) ==
      if key == PROTO_KEY || FieldAt(fields, key).None? then None
      else Some(if IsSensitive(key) then MARKER else Sanitize(FieldAt(fields, key).value))
    decreases fields
  {
    if fields != [] {
      var n := |fields| - 1;
      FieldAtCopy(fields[..n], key);
      FieldAtPushed(SanitizeFields(fields[..n]), SanitizeField(fields[n]), key);
      assert SanitizeFields(fields[..n]) + [] == SanitizeFields(fields[..n]);
    }
  }

  lemma {:induction false} ItemAtCopy(items: seq<Json>, i: nat)
    requires i < |items|
    ensures SanitizeAll(items)[i] == Sanitize(items[i])
    decreases items
  {
    if i < |items| - 1 {
      ItemAtCopy(items[..|items| - 1], i);
    }
  }

  lemma ChildOfCopy(j: Json, s: Step)
    ensures Child(Sanitize(j), s) ==
      if Child(j, s).None? || s == Key(PROTO_KEY) then None
      else Some(if s.Key? && IsSensitive(s.name) then MARKER else Sanitize(Child(j, s).value))
  {
    match s
    case Key(k) => if j.Obj? { FieldAtCopy(j.fields, k); }
    case Index(i) => if j.Arr? && i < |j.items| { ItemAtCopy(j.items, i); }
  }

  /**
   A path without sensitive keys leads in the copy to the copy of what it leads
   to in the tree, and nowhere when it led nowhere: every key is kept and
   insensitive data is unchanged at any depth.
   */
  lemma {:induction false} ClearPathsAreKept(j: Json, path: seq<Step>)
    requires ClearPath(path)
    ensures At(Sanitize(j), path) == if At(j, path).None? then None else Some(Sanitize(At(j, path).value))
    decreases |path|
  {
    if path != [] {
      ChildOfCopy(j, path[0]);
      assert IsClear(path[0]);
      if Child(j, path[0]).Some? {
        ClearPathsAreKept(Child(j, path[0]).value, path[1..]);
      }
    }
  }

  lemma {:induction false} AtJoined(j: Json, path: seq<Step>, more: seq<Step>)
    ensures At(j, path + more) == if At(j, path).None? then None else At(At(j, path).value, more)
    decreases |path|
  {
    if path == [] {
      assert path + more == more;
    } else {
      assert (path + more)[0] == path[0] && (path + more)[1..] == path[1..] + more;
      if Child(j, path[0]).Some? {
        AtJoined(Child(j, path[0]).value, path[1..], more);
      }
    }
  }

  /** A path whose first sensitive key is its last step leads to the marker; a path beyond it leads nowhere. */
  lemma RedactedPathsEnd(j: Json, path: seq<Step>, key: string, more: seq<Step>)
    requires ClearPath(path) && IsSensitive(key)
    ensures At(Sanitize(j), path + ([Key(key)] + more)) ==
      if At(j, path + [Key(key)]).Some? && more == [] then Some(MARKER) else None
  {
    ClearPathsAreKept(j, path);
    AtJoined(j, path, [Key(key)]);
    AtJoined(Sanitize(j), path, [Key(key)] + more);
    ProtoKeyIsNotSensitive();
    if At(j, path).Some? {
      var here := At(j, path).value;
      ChildOfCopy(here, Key(key));
      assert ([Key(key)] + more)[1..] == more && [Key(key)][1..] == [];
      assert At(here, [Key(key)]) == Child(here, Key(key));
    }
  }

  lemma {:induction false} CleanFieldAt(fields: seq<Field>, key: string)
    requires FieldsClean(fields) && FieldAt(fields, key).Some?
    ensures CleanField(Field(key, FieldAt(fields, key).value))
  {
    if fields[|fields| - 1].key != key {
      CleanFieldAt(fields[..|fields| - 1], key);
    } else {
      assert fields[|fields| - 1] == Field(key, FieldAt(fields, key).value);
    }
  }

  lemma {:induction false} CleanItem(items: seq<Json>, i: nat)
    requires AllClean(items) && i < |items|
    ensures Clean(items[i])
  {
    if i < |items| - 1 {
      CleanItem(items[..|items| - 1], i);
    }
  }

  lemma CleanChild(j: Json, s: Step)
    requires Clean(j) && Child(j, s).Some?
    ensures Clean(Child(j, s).value)
  {
    match s
    case Key(k) => CleanFieldAt(j.fields, k);
    case Index(i) => CleanItem(j.items, i);
  }

  lemma {:induction false} CleanAt(j: Json, path: seq<Step>)
    requires Clean(j) && At(j, path).Some?
    ensures Clean(At(j, path).value)
    decreases |path|
  {
    if path != [] {
      CleanChild(j, path[0]);
      CleanAt(Child(j, path[0]).value, path[1..]);
    }
  }

  /**
   Whatever path leads to it, a field of the copy whose key is a listed name but for
   case holds the marker.
   */
  lemma ListedKeysHoldMarker(j: Json, path: seq<Step>, key: string, name: string)
    requires name in SENSITIVE_KEYS && SameButForCase(key, name)
    ensures var here := At(Sanitize(j), path);
      here.Some? && Child(here.value, Key(key)).Some? ==> Child(here.value, Key(key)).value == Str("[REDACTED]")
  {
    SensitiveExact(key);
    CopyIsClean(j);
    if At(Sanitize(j), path).Some? {
      var here := At(Sanitize(j), path).value;
      CleanAt(Sanitize(j), path);
      if Child(here, Key(key)).Some? {
        CleanFieldAt(here.fields, key);
      }
    }
  }

  /** A prototype key leads nowhere in the copy. */
  lemma ProtoPathsVanish(j: Json, path: seq<Step>, more: seq<Step>)
    requires ClearPath(path)
    ensures At(Sanitize(j), path + ([Key(PROTO_KEY)] + more)) == None
  {
    ClearPathsAreKept(j, path);
    AtJoined(Sanitize(j), path, [Key(PROTO_KEY)] + more);
    if At(j, path).Some? {
      ChildOfCopy(At(j, path).value, Key(PROTO_KEY));
    }
  }

  // ---------------------------------------------------------- the loops

  ghost predicate DistinctKeys(fields: seq<Field>) {
    forall i, j :: 0 <= i < j < |fields| ==> fields[i].key != fields[j].key
  }

  /** No object has the same key twice. */
  ghost predicate IsTree(j: Json)
    decreases j
  {
    match j
    case Arr(items) => forall i :: 0 <= i < |items| ==> IsTree(items[i])
    case Obj(fields) => AreFields(fields)
    case _ => true
  }

  ghost predicate AreFields(fields: seq<Field>)
    decreases fields, 0
  {
    DistinctKeys(fields) && forall i :: 0 <= i < |fields| ==> IsTree(fields[i].value)
  }

  /** Assignment to a key of an object. */
  function Assign(fields: seq<Field>, key: string, value: Json): seq<Field> {
    if key == PROTO_KEY then fields
    else if fields == [] then [Field(key, value)]
    else if fields[0].key == key then [Field(key, value)] + fields[1..]
    else [fields[0]] + Assign(fields[1..], key, value)
  }

  lemma {:induction false} AssignNew(fields: seq<Field>, key: string, value: Json)
    requires forall f :: f in fields ==> f.key != key
    ensures Assign(fields, key, value) == fields + if key == PROTO_KEY then [] else [Field(key, value)]
  {
    if fields != [] {
      AssignNew(fields[1..], key, value);
    }
  }

  lemma {:induction false} CopiedKeys(fields: seq<Field>)
    ensures forall g :: g in SanitizeFields(fields) ==> exists f :: f in fields && f.key == g.key
    decreases fields
  {
    if fields != [] {
      var n := |fields| - 1;
      CopiedKeys(fields[..n]);
      assert fields[n] in fields && forall f :: f in fields[..n] ==> f in fields;
    }
  }

  /** One turn of the loop below. */
  lemma AssignCopies(metadata: seq<Field>, i: nat, copy: Json)
    requires DistinctKeys(metadata) && i < |metadata|
    requires copy == if IsSensitive(metadata[i].key) then MARKER else Sanitize(metadata[i].value)
    ensures Assign(SanitizeFields(metadata[..i]), metadata[i].key, copy) == SanitizeFields(metadata[..i + 1])
  {
    CopiedKeys(metadata[..i]);
    assert forall f :: f in metadata[..i] ==> f.key != metadata[i].key;
    AssignNew(SanitizeFields(metadata[..i]), metadata[i].key, copy);
    assert metadata[..i + 1][..i] == metadata[..i];
  }

  /** Fills a new object key by key. */
  method SanitizeMetadata(metadata: seq<Field>) returns (sanitized: seq<Field>)
    requires AreFields(metadata)
    ensures sanitized == SanitizeFields(metadata)
    decreases metadata
  {
    sanitized := [];
    for i := 0 to |metadata|
      invariant sanitized == SanitizeFields(metadata[..i])
    {
      var key, value := metadata[i].key, metadata[i].value;
      assert IsTree(value);
      var copy := MARKER;
      if IsSensitive(key) {
      } else if value.Arr? {
        var items := SanitizeArray(value.items);
        copy := Arr(items);
      } else if value.Obj? {
        var fields := SanitizeMetadata(value.fields);
        copy := Obj(fields);
      } else {
        copy := value;
      }
      AssignCopies(metadata, i, copy);
      sanitized := Assign(sanitized, key, copy);
    }
    assert metadata[..|metadata|] == metadata;
  }

  method SanitizeArray(arr: seq<Json>) returns (r: seq<Json>)
    requires forall i :: 0 <= i < |arr| ==> IsTree(arr[i])
    ensures r == SanitizeAll(arr)
    decreases arr
  {
    r := [];
    for i := 0 to |arr|
      invariant r == SanitizeAll(arr[..i])
    {
      var element := arr[i];
      assert arr[..i + 1][..i] == arr[..i];
      if element.Arr? {
        var items := SanitizeArray(element.items);
        r := r + [Arr(items)];
      } else if element.Obj? {
        var fields := SanitizeMetadata(element.fields);
        r := r + [Obj(fields)];
      } else {
        r := r + [element];
      }
    }
    assert arr[..|arr|] == arr;
  }
}
