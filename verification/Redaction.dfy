/** The note vault's security gates on JSON trees: the check that refuses plaintext note fields, and
    the redaction of a tree for logs. */
module Redaction {
  import opened JsMap
  import opened Json

  const FORBIDDEN: set<string> := {
    "owner_secret", "spend_secret", "blinding", "nonce", "note_preimage",
    "vault_master_key", "raw_signature", "private_key", "secret"}

  const WRAPPED: set<string> := {"wrapped_key", "ciphertext"}

  const MASK := Str("[REDACTED]")

  /** Assigning this key to a fresh object sets its prototype and leaves no entry. */
  const PROTO := "__proto__"

  // ---------- the gate ----------

  /** The first forbidden key the walk meets, if any: it makes the gate throw. */
  function FirstForbidden(v: Value): Option<string>
    decreases v, if v.Arr? then |v.items| + 1 else if v.Obj? then |v.fields| + 1 else 0
  {
    match v
    case Arr(items) => ForbiddenInItems(v, 0)
    case Obj(fields) => ForbiddenInFields(v, 0)
    case _ => None
  }

  function ForbiddenInItems(v: Value, i: nat): Option<string>
    requires v.Arr? && i <= |v.items|
    decreases v, |v.items| - i
  {
    if i == |v.items| then None
    else
      var first := FirstForbidden(v.items[i]);
      if first.Some? then first else ForbiddenInItems(v, i + 1)
  }

  function ForbiddenInFields(v: Value, i: nat): Option<string>
    requires v.Obj? && i <= |v.fields|
    decreases v, |v.fields| - i
  {
    if i == |v.fields| then None
    else if v.fields[i].0 in FORBIDDEN then Some(v.fields[i].0)
    else
      var first := FirstForbidden(v.fields[i].1);
      if first.Some? then first else ForbiddenInFields(v, i + 1)
  }

  /** Key k occurs in an object somewhere in the tree. */
  ghost predicate Occurs(k: string, v: Value)
    decreases v
  {
    match v
    case Arr(items) => exists i :: 0 <= i < |items| && Occurs(k, items[i])
    case Obj(fields) => exists i :: 0 <= i < |fields| && (fields[i].0 == k || Occurs(k, fields[i].1))
    case _ => false
  }

  /** The gate lets a tree pass exactly when no forbidden key occurs at any depth, and otherwise
      names one that does. */
  lemma {:induction false} GateExact(v: Value)
    ensures FirstForbidden(v).None? <==> forall k | k in FORBIDDEN :: !Occurs(k, v)
    ensures FirstForbidden(v).Some? ==> FirstForbidden(v).value in FORBIDDEN && Occurs(FirstForbidden(v).value, v)
    decreases v, if v.Arr? then |v.items| + 1 else if v.Obj? then |v.fields| + 1 else 0
  {
    match v
    case Arr(items) => GateItems(v, 0);
    case Obj(fields) => GateFields(v, 0);
    case _ =>
  }

  lemma {:induction false} GateItems(v: Value, i: nat)
    requires v.Arr? && i <= |v.items|
    ensures ForbiddenInItems(v, i).None? <==>
              forall k, j | k in FORBIDDEN && i <= j < |v.items| :: !Occurs(k, v.items[j])
    ensures ForbiddenInItems(v, i).Some? ==>
              ForbiddenInItems(v, i).value in FORBIDDEN && Occurs(ForbiddenInItems(v, i).value, v)
    decreases v, |v.items| - i
  {
    if i < |v.items| {
      GateExact(v.items[i]);
      GateItems(v, i + 1);
    }
  }

  lemma {:induction false} GateFields(v: Value, i: nat)
    requires v.Obj? && i <= |v.fields|
    ensures ForbiddenInFields(v, i).None? <==>
              forall k, j | k in FORBIDDEN && i <= j < |v.fields| :: v.fields[j].0 != k && !Occurs(k, v.fields[j].1)
    ensures ForbiddenInFields(v, i).Some? ==>
              ForbiddenInFields(v, i).value in FORBIDDEN && Occurs(ForbiddenInFields(v, i).value, v)
    decreases v, |v.fields| - i
  {
    if i < |v.fields| {
      GateExact(v.fields[i].1);
      GateFields(v, i + 1);
    }
  }

  // ---------- redaction ----------

  /** Rebuilds a tree with the values of the given keys masked. */
  function Mask(keys: set<string>, v: Value): Value
    decreases v, if v.Obj? then |v.fields| + 1 else 0
  {
    match v
    case Arr(items) => Arr(seq(|items|, i requires 0 <= i < |items| => Mask(keys, items[i])))
    case Obj(fields) => Obj(MaskFields(keys, v, |fields|))
    case _ => v
  }

  /** The first n entries of an object, masked. */
  function MaskFields(keys: set<string>, v: Value, n: nat): OrderedMap<string, Value>
    requires v.Obj? && n <= |v.fields|
    decreases v, n
  {
    if n == 0 then []
    else
      var (k, x) := (v.fields[n - 1].0, v.fields[n - 1].1);
      var done := MaskFields(keys, v, n - 1);
      if k == PROTO then done
      else done + [(k, if k in keys then MASK else Mask(keys, x))]
  }

  function Redact(v: Value): Value {
    Mask(FORBIDDEN + WRAPPED, v)
  }

  // ---------- what redaction hides and keeps ----------

  /** No object outside masked values has a prototype key. */
  ghost predicate NoProto(keys: set<string>, v: Value)
    decreases v
  {
    match v
    case Arr(items) => forall i | 0 <= i < |items| :: NoProto(keys, items[i])
    case Obj(fields) =>
      forall i | 0 <= i < |fields| :: fields[i].0 != PROTO && (fields[i].0 in keys || NoProto(keys, fields[i].1))
    case _ => true
  }

  /** The trees differ at most in the values of the given keys (and of prototype keys). */
  ghost predicate Agree(keys: set<string>, u: Value, v: Value)
    decreases u
  {
    match u
    case Arr(items) =>
      v.Arr? && |v.items| == |items| && forall i | 0 <= i < |items| :: Agree(keys, items[i], v.items[i])
    case Obj(fields) =>
      && v.Obj? && |v.fields| == |fields|
      && forall i | 0 <= i < |fields| ::
           && v.fields[i].0 == fields[i].0
           && (fields[i].0 in keys || fields[i].0 == PROTO || Agree(keys, fields[i].1, v.fields[i].1))
    case _ => u == v
  }

  lemma {:induction false} AgreeMasks(keys: set<string>, u: Value, v: Value)
    requires Agree(keys, u, v)
    ensures Mask(keys, u) == Mask(keys, v)
    decreases u, if u.Obj? then |u.fields| + 1 else 0
  {
    match u
    case Arr(items) =>
      forall i | 0 <= i < |items| ensures Mask(keys, items[i]) == Mask(keys, v.items[i]) {
        AgreeMasks(keys, items[i], v.items[i]);
      }
    case Obj(fields) => AgreeMaskFields(keys, u, v, |fields|);
    case _ =>
  }

  lemma {:induction false} AgreeMaskFields(keys: set<string>, u: Value, v: Value, n: nat)
    requires u.Obj? && v.Obj? && Agree(keys, u, v) && n <= |u.fields|
    ensures MaskFields(keys, u, n) == MaskFields(keys, v, n)
    decreases u, n
  {
    if n > 0 {
      AgreeMaskFields(keys, u, v, n - 1);
      if u.fields[n - 1].0 !in keys && u.fields[n - 1].0 != PROTO {
        AgreeMasks(keys, u.fields[n - 1].1, v.fields[n - 1].1);
      }
    }
  }

  /** Without prototype keys, entry i of the masked object is entry i of the object, masked. */
  lemma {:induction false} MaskFieldAt(keys: set<string>, v: Value, n: nat)
    requires v.Obj? && n <= |v.fields| && forall i | 0 <= i < n :: v.fields[i].0 != PROTO
    ensures var r := MaskFields(keys, v, n);
            |r| == n && forall i | 0 <= i < n ::
              r[i] == (v.fields[i].0, if v.fields[i].0 in keys then MASK else Mask(keys, v.fields[i].1))
  {
    if n > 0 {
      MaskFieldAt(keys, v, n - 1);
    }
  }

  lemma {:induction false} MasksAgree(keys: set<string>, u: Value, v: Value)
    requires NoProto(keys, u) && NoProto(keys, v) && Mask(keys, u) == Mask(keys, v)
    ensures Agree(keys, u, v)
    decreases u
  {
    match u
    case Arr(items) =>
      assert v.Arr?;
      assert |Mask(keys, u).items| == |items| && |Mask(keys, v).items| == |v.items|;
      forall i | 0 <= i < |items| ensures Agree(keys, items[i], v.items[i]) {
        assert Mask(keys, u).items[i] == Mask(keys, v).items[i];
        MasksAgree(keys, items[i], v.items[i]);
      }
    case Obj(fields) =>
      assert v.Obj?;
      MaskFieldAt(keys, u, |fields|);
      MaskFieldAt(keys, v, |v.fields|);
      forall i | 0 <= i < |fields|
        ensures v.fields[i].0 == fields[i].0 && (fields[i].0 in keys || Agree(keys, fields[i].1, v.fields[i].1))
      {
        assert MaskFields(keys, u, |fields|)[i] == MaskFields(keys, v, |v.fields|)[i];
        if fields[i].0 !in keys { MasksAgree(keys, fields[i].1, v.fields[i].1); }
      }
    case _ => assert u == Mask(keys, u);
  }

  /** Redaction is non-interfering: trees that differ only under sensitive keys redact to the same
      tree; and without prototype keys, only such trees do. */
  lemma {:induction false} RedactionHides(u: Value, v: Value)
    ensures Agree(FORBIDDEN + WRAPPED, u, v) ==> Redact(u) == Redact(v)
    ensures NoProto(FORBIDDEN + WRAPPED, u) && NoProto(FORBIDDEN + WRAPPED, v) && Redact(u) == Redact(v) ==>
              Agree(FORBIDDEN + WRAPPED, u, v)
  {
    var keys := FORBIDDEN + WRAPPED;
    if Agree(keys, u, v) { AgreeMasks(keys, u, v); }
    if NoProto(keys, u) && NoProto(keys, v) && Redact(u) == Redact(v) { MasksAgree(keys, u, v); }
  }

  /** Redaction keeps keys, order and structure exactly when no prototype key is in the way. */
  lemma {:induction false} RedactionKeepsShape(keys: set<string>, v: Value)
    ensures Agree(keys, v, Mask(keys, v)) <==> NoProto(keys, v)
    decreases v
  {
    match v
    case Arr(items) =>
      forall i | 0 <= i < |items| ensures Agree(keys, items[i], Mask(keys, v).items[i]) <==> NoProto(keys, items[i]) {
        RedactionKeepsShape(keys, items[i]);
      }
    case Obj(fields) =>
      MaskFieldCount(keys, v, |fields|);
      if forall i | 0 <= i < |fields| :: fields[i].0 != PROTO {
        MaskFieldAt(keys, v, |fields|);
        forall i | 0 <= i < |fields| && fields[i].0 !in keys
          ensures Agree(keys, fields[i].1, Mask(keys, v).fields[i].1) <==> NoProto(keys, fields[i].1)
        {
          RedactionKeepsShape(keys, fields[i].1);
        }
      }
    case _ =>
  }

  lemma {:induction false} MaskFieldCount(keys: set<string>, v: Value, n: nat)
    requires v.Obj? && n <= |v.fields|
    ensures |MaskFields(keys, v, n)| <= n
    ensures |MaskFields(keys, v, n)| == n <==> forall i | 0 <= i < n :: v.fields[i].0 != PROTO
    ensures forall j | 0 <= j < |MaskFields(keys, v, n)| :: MaskFields(keys, v, n)[j].0 != PROTO
  {
    if n > 0 {
      MaskFieldCount(keys, v, n - 1);
    }
  }

  lemma {:induction false} MaskedHasNoProto(keys: set<string>, v: Value)
    ensures NoProto(keys, Mask(keys, v))
    decreases v, if v.Obj? then |v.fields| + 1 else 0
  {
    match v
    case Arr(items) =>
      forall i | 0 <= i < |items| ensures NoProto(keys, Mask(keys, items[i])) { MaskedHasNoProto(keys, items[i]); }
    case Obj(fields) => MaskedFieldsHaveNoProto(keys, v, |fields|);
    case _ =>
  }

  lemma {:induction false} MaskedFieldsHaveNoProto(keys: set<string>, v: Value, n: nat)
    requires v.Obj? && n <= |v.fields|
    ensures forall j | 0 <= j < |MaskFields(keys, v, n)| ::
              var e := MaskFields(keys, v, n)[j];
              e.0 != PROTO && (e.0 in keys ==> e.1 == MASK) && (e.0 in keys || NoProto(keys, e.1))
    decreases v, n
  {
    if n > 0 {
      MaskedFieldsHaveNoProto(keys, v, n - 1);
      MaskedHasNoProto(keys, v.fields[n - 1].1);
    }
  }

  /** Redacting a redacted tree changes nothing. */
  lemma {:induction false} RedactionIdempotent(keys: set<string>, v: Value)
    ensures Mask(keys, Mask(keys, v)) == Mask(keys, v)
    decreases v, if v.Obj? then |v.fields| + 1 else 0
  {
    match v
    case Arr(items) =>
      forall i | 0 <= i < |items|
        ensures Mask(keys, Mask(keys, items[i])) == Mask(keys, items[i])
      {
        RedactionIdempotent(keys, items[i]);
      }
      assert Mask(keys, Mask(keys, v)).items == Mask(keys, v).items;
    case Obj(fields) =>
      var r := Mask(keys, v);
      MaskedFieldsHaveNoProto(keys, v, |fields|);
      MaskedFieldsFixed(keys, v, |fields|);
      var masked := MaskFields(keys, v, |fields|);
      forall j | 0 <= j < |r.fields| ensures r.fields[j].0 != PROTO { assert r.fields[j] == masked[j]; }
      MaskFieldAt(keys, r, |r.fields|);
      var again := MaskFields(keys, r, |r.fields|);
      forall j | 0 <= j < |r.fields| ensures again[j] == r.fields[j] { assert r.fields[j] == masked[j]; }
      assert again == r.fields;
    case _ =>
  }

  lemma {:induction false} MaskedFieldsFixed(keys: set<string>, v: Value, n: nat)
    requires v.Obj? && n <= |v.fields|
    ensures forall j | 0 <= j < |MaskFields(keys, v, n)| ::
              var e := MaskFields(keys, v, n)[j]; if e.0 in keys then e.1 == MASK else Mask(keys, e.1) == e.1
    decreases v, n
  {
    if n > 0 {
      MaskedFieldsFixed(keys, v, n - 1);
      RedactionIdempotent(keys, v.fields[n - 1].1);
    }
  }

  /** In a tree the gate lets pass, redaction changes only wrapped keys and ciphertexts. */
  lemma {:induction false} RedactionAfterGate(v: Value)
    requires FirstForbidden(v).None?
    ensures Redact(v) == Mask(WRAPPED, v)
  {
    GateExact(v);
    MaskUnused(FORBIDDEN, WRAPPED, v);
  }

  lemma {:induction false} MaskUnused(unused: set<string>, keys: set<string>, v: Value)
    requires forall k | k in unused :: !Occurs(k, v)
    ensures Mask(unused + keys, v) == Mask(keys, v)
    decreases v, if v.Obj? then |v.fields| + 1 else 0
  {
    match v
    case Arr(items) =>
      forall i | 0 <= i < |items|
        ensures Mask(unused + keys, items[i]) == Mask(keys, items[i])
      {
        MaskUnused(unused, keys, items[i]);
      }
    case Obj(fields) => MaskUnusedFields(unused, keys, v, |fields|);
    case _ =>
  }

  lemma {:induction false} MaskUnusedFields(unused: set<string>, keys: set<string>, v: Value, n: nat)
    requires v.Obj? && n <= |v.fields| && forall k | k in unused :: !Occurs(k, v)
    ensures MaskFields(unused + keys, v, n) == MaskFields(keys, v, n)
    decreases v, n
  {
    if n > 0 {
      MaskUnusedFields(unused, keys, v, n - 1);
      MaskUnused(unused, keys, v.fields[n - 1].1);
    }
  }

  // ---------- the keys ----------

  /** The nine keys that the gate refuses at any depth. */
  lemma {:induction false} GateKeys(v: Value)
    ensures FirstForbidden(v).None? <==>
              && !Occurs("owner_secret", v) && !Occurs("spend_secret", v) && !Occurs("blinding", v)
              && !Occurs("nonce", v) && !Occurs("note_preimage", v) && !Occurs("vault_master_key", v)
              && !Occurs("raw_signature", v) && !Occurs("private_key", v) && !Occurs("secret", v)
  {
    GateExact(v);
  }

  /** The eleven keys whose values are masked in a log; every other value is redacted in turn. */
  lemma {:induction false} RedactedField(k: string, x: Value)
    requires k != "__proto__"
    ensures Redact(Obj([(k, x)])) ==
              Obj([(k, if || k == "owner_secret" || k == "spend_secret" || k == "blinding" || k == "nonce"
                          || k == "note_preimage" || k == "vault_master_key" || k == "raw_signature"
                          || k == "private_key" || k == "secret" || k == "wrapped_key" || k == "ciphertext"
                       then Str("[REDACTED]") else Redact(x))])
  {
    var v := Obj([(k, x)]);
    assert MaskFields(FORBIDDEN + WRAPPED, v, 0) == [];
    assert MaskFields(FORBIDDEN + WRAPPED, v, 1)
        == [] + [(k, if k in FORBIDDEN + WRAPPED then MASK else Mask(FORBIDDEN + WRAPPED, x))];
  }
}
