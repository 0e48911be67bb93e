/** Selective-disclosure reports: the canonical text a report's signature is computed over. */
module ReportPayload {
  import opened JsMap
  import opened Json
  import opened StringOrder

  /** A disclosed amount is an object that serializes in its own order of keys. */
  type Disclosure = v: Value | WellFormed(v) witness Null

  /** A report without its signature; absent and null optional fields are both None. */
  datatype Report = Report(
    reportId: string, userId: string, generatedAt: string,
    timeRangeFrom: Option<string>, timeRangeTo: Option<string>,
    noteCommitments: seq<string>, disclosedNullifiers: seq<string>,
    quoteId: Option<string>, policyId: Option<string>, anchorId: Option<string>,
    amountsDisclosed: Option<seq<Disclosure>>, proofLinks: seq<string>)

  function OrNull(o: Option<string>): Value {
    if o.Some? then Str(o.value) else Null
  }

  function StringList(s: seq<string>): Value {
    Arr(seq(|s|, i requires 0 <= i < |s| => Str(s[i])))
  }

  function Amounts(o: Option<seq<Disclosure>>): seq<Disclosure> {
    if o.Some? then o.value else []
  }

  function DisclosureList(ds: seq<Disclosure>): Value {
    Arr(ds)
  }

  function PayloadFields(r: Report): OrderedMap<string, Value> {
    [("reportId", Str(r.reportId)), ("userId", Str(r.userId)), ("generatedAt", Str(r.generatedAt)),
     ("timeRangeFrom", OrNull(r.timeRangeFrom)), ("timeRangeTo", OrNull(r.timeRangeTo)),
     ("noteCommitments", StringList(Sort(r.noteCommitments))),
     ("disclosedNullifiers", StringList(Sort(r.disclosedNullifiers))),
     ("quoteId", OrNull(r.quoteId)), ("policyId", OrNull(r.policyId)), ("anchorId", OrNull(r.anchorId)),
     ("amountsDisclosed", DisclosureList(Amounts(r.amountsDisclosed))), ("proofLinks", StringList(Sort(r.proofLinks)))]
  }

  function CanonicalPayload(r: Report): string {
    Stringify(Obj(PayloadFields(r)))
  }

  /** A hash of texts, and a signature check on public key, digest and signature. */
  datatype Scheme = Scheme(digest: string -> string, accepts: (string, string, string) -> bool)

  function Verify(scheme: Scheme, r: Report, pubkey: string, signature: string): bool {
    scheme.accepts(pubkey, scheme.digest(CanonicalPayload(r)), signature)
  }

  // ---------- the payload is well-formed JSON ----------

  lemma {:induction false} ListsWellFormed(ss: seq<string>, ds: seq<Disclosure>)
    ensures WellFormed(StringList(ss)) && WellFormed(DisclosureList(ds))
  {
  }

  /** Length and first character tell the twelve keys apart. */
  lemma {:induction false} KeysDistinct(r: Report)
    ensures Unique(PayloadFields(r))
  {
    var f := PayloadFields(r);
    assert |f[0].0| == 8 && |f[1].0| == 6 && |f[2].0| == 11 && |f[3].0| == 13 && |f[4].0| == 11 && |f[5].0| == 15;
    assert |f[6].0| == 19 && |f[7].0| == 7 && |f[8].0| == 8 && |f[9].0| == 8 && |f[10].0| == 16 && |f[11].0| == 10;
    assert f[0].0[0] == 'r' && f[8].0[0] == 'p' && f[9].0[0] == 'a' && f[2].0[0] == 'g' && f[4].0[0] == 't';
  }

  lemma {:induction false} ScalarsWellFormed(r: Report, i: nat)
    requires i < 12 && i !in {5, 6, 10, 11}
    ensures WellFormed(PayloadFields(r)[i].1)
  {
  }

  lemma {:induction false} ValuesWellFormed(r: Report, i: nat)
    requires i < 12
    ensures WellFormed(PayloadFields(r)[i].1)
  {
    if i in {5, 6, 10, 11} {
      ListsWellFormed(Sort(r.noteCommitments), Amounts(r.amountsDisclosed));
      ListsWellFormed(Sort(r.disclosedNullifiers), []);
      ListsWellFormed(Sort(r.proofLinks), []);
    } else {
      ScalarsWellFormed(r, i);
    }
  }

  lemma {:induction false} PayloadWellFormed(r: Report)
    ensures WellFormed(Obj(PayloadFields(r)))
  {
    KeysDistinct(r);
    forall i | 0 <= i < |PayloadFields(r)| ensures WellFormed(PayloadFields(r)[i].1) { ValuesWellFormed(r, i); }
  }

  // ---------- canonicity ----------

  lemma {:induction false} StringListInjective(s: seq<string>, t: seq<string>)
    requires StringList(s) == StringList(t)
    ensures s == t
  {
    assert |StringList(s).items| == |s| && |StringList(t).items| == |t|;
    forall i | 0 <= i < |s| ensures s[i] == t[i] {
      assert StringList(s).items[i] == StringList(t).items[i];
    }
  }

  /** The reports say the same up to the order of their commitment, nullifier and link lists. */
  ghost predicate SameContent(r: Report, q: Report) {
    && r.reportId == q.reportId && r.userId == q.userId && r.generatedAt == q.generatedAt
    && r.timeRangeFrom == q.timeRangeFrom && r.timeRangeTo == q.timeRangeTo
    && r.quoteId == q.quoteId && r.policyId == q.policyId && r.anchorId == q.anchorId
    && Amounts(r.amountsDisclosed) == Amounts(q.amountsDisclosed)
    && multiset(r.noteCommitments) == multiset(q.noteCommitments)
    && multiset(r.disclosedNullifiers) == multiset(q.disclosedNullifiers)
    && multiset(r.proofLinks) == multiset(q.proofLinks)
  }

  lemma {:induction false} FieldsAgree(r: Report, q: Report)
    requires PayloadFields(r) == PayloadFields(q)
    ensures SameContent(r, q)
  {
    var f, g := PayloadFields(r), PayloadFields(q);
    assert f[0] == g[0] && f[1] == g[1] && f[2] == g[2] && f[3] == g[3] && f[4] == g[4] && f[5] == g[5];
    assert f[6] == g[6] && f[7] == g[7] && f[8] == g[8] && f[9] == g[9] && f[10] == g[10] && f[11] == g[11];
    StringListInjective(Sort(r.noteCommitments), Sort(q.noteCommitments));
    StringListInjective(Sort(r.disclosedNullifiers), Sort(q.disclosedNullifiers));
    StringListInjective(Sort(r.proofLinks), Sort(q.proofLinks));
    SortCanonical(r.noteCommitments, q.noteCommitments);
    SortCanonical(r.disclosedNullifiers, q.disclosedNullifiers);
    SortCanonical(r.proofLinks, q.proofLinks);
  }

  /** Two reports have the same payload text exactly when they have the same content. */
  lemma {:induction false} PayloadCanonical(r: Report, q: Report)
    ensures CanonicalPayload(r) == CanonicalPayload(q) <==> SameContent(r, q)
  {
    if CanonicalPayload(r) == CanonicalPayload(q) {
      PayloadWellFormed(r);
      PayloadWellFormed(q);
      StringifyInjective(Obj(PayloadFields(r)), Obj(PayloadFields(q)));
      FieldsAgree(r, q);
    }
    if SameContent(r, q) {
      SortCanonical(r.noteCommitments, q.noteCommitments);
      SortCanonical(r.disclosedNullifiers, q.disclosedNullifiers);
      SortCanonical(r.proofLinks, q.proofLinks);
    }
  }

  /** Verification ignores the order of the lists, whatever the scheme; and it ignores nothing else:
      where reports with other content verify under one signature, two different texts have one digest,
      or one signature is accepted for two digests. */
  lemma {:induction false} VerificationIgnoresOnlyOrder(
    scheme: Scheme, r: Report, q: Report, pubkey: string, signature: string)
    ensures SameContent(r, q) ==> Verify(scheme, r, pubkey, signature) == Verify(scheme, q, pubkey, signature)
    ensures Verify(scheme, r, pubkey, signature) && Verify(scheme, q, pubkey, signature) && !SameContent(r, q) ==>
              Collision(scheme, CanonicalPayload(r), CanonicalPayload(q)) || SignsTwo(scheme, pubkey, signature)
    ensures Collision(scheme, CanonicalPayload(r), CanonicalPayload(q)) ==>
              Verify(scheme, r, pubkey, signature) == Verify(scheme, q, pubkey, signature)
  {
    PayloadCanonical(r, q);
    var d, e := scheme.digest(CanonicalPayload(r)), scheme.digest(CanonicalPayload(q));
    if scheme.accepts(pubkey, d, signature) && scheme.accepts(pubkey, e, signature) && d != e {
      assert SignsTwo(scheme, pubkey, signature);
    }
  }

  /** The service signs the digest of a report's text. */
  function Sign(scheme: Scheme, r: Report, sign: string -> string): string {
    sign(scheme.digest(CanonicalPayload(r)))
  }

  /** What the service signed verifies, also after the lists were reordered, under every scheme that accepts
      what it signed. */
  lemma {:induction false} SignedVerifies(
    scheme: Scheme, r: Report, q: Report, pubkey: string, sign: string -> string)
    requires (forall d :: scheme.accepts(pubkey, d, sign(d))) && SameContent(r, q)
    ensures Verify(scheme, q, pubkey, Sign(scheme, r, sign))
  {
    PayloadCanonical(r, q);
  }

  ghost predicate Collision(scheme: Scheme, text: string, other: string) {
    text != other && scheme.digest(text) == scheme.digest(other)
  }

  ghost predicate SignsTwo(scheme: Scheme, pubkey: string, signature: string) {
    exists d, e :: d != e && scheme.accepts(pubkey, d, signature) && scheme.accepts(pubkey, e, signature)
  }

  // ---------- what the text says ----------

  lemma {:induction false} FieldReads(r: Report, i: nat)
    requires i < 12
    ensures var f := PayloadFields(r); Find(f, f[i].0) == Some(f[i].1)
  {
    KeysDistinct(r);
    IndexAt(PayloadFields(r), i);
  }

  lemma {:induction false} IdsRead(r: Report)
    ensures var f := PayloadFields(r);
            && Find(f, "reportId") == Some(Str(r.reportId)) && Find(f, "userId") == Some(Str(r.userId))
            && Find(f, "generatedAt") == Some(Str(r.generatedAt))
            && Find(f, "timeRangeFrom") == Some(OrNull(r.timeRangeFrom))
            && Find(f, "timeRangeTo") == Some(OrNull(r.timeRangeTo))
  {
    FieldReads(r, 0);
    FieldReads(r, 1);
    FieldReads(r, 2);
    FieldReads(r, 3);
    FieldReads(r, 4);
  }

  lemma {:induction false} RestReads(r: Report)
    ensures var f := PayloadFields(r);
            && Find(f, "quoteId") == Some(OrNull(r.quoteId)) && Find(f, "policyId") == Some(OrNull(r.policyId))
            && Find(f, "anchorId") == Some(OrNull(r.anchorId))
            && Find(f, "amountsDisclosed") == Some(Arr(Amounts(r.amountsDisclosed)))
  {
    FieldReads(r, 7);
    FieldReads(r, 8);
    FieldReads(r, 9);
    FieldReads(r, 10);
  }

  lemma {:induction false} ListsRead(r: Report)
    ensures var f := PayloadFields(r);
            && Find(f, "noteCommitments") == Some(StringList(Sort(r.noteCommitments)))
            && Find(f, "disclosedNullifiers") == Some(StringList(Sort(r.disclosedNullifiers)))
            && Find(f, "proofLinks") == Some(StringList(Sort(r.proofLinks)))
  {
    FieldReads(r, 5);
    FieldReads(r, 6);
    FieldReads(r, 11);
  }

  /** The members of a payload, each with the report's own value, an absent one as null and the three lists
      sorted. */
  ghost predicate Says(f: OrderedMap<string, Value>, r: Report) {
    && |f| == 12
    && Find(f, "reportId") == Some(Str(r.reportId)) && Find(f, "userId") == Some(Str(r.userId))
    && Find(f, "generatedAt") == Some(Str(r.generatedAt))
    && Find(f, "timeRangeFrom") == Some(OrNull(r.timeRangeFrom))
    && Find(f, "timeRangeTo") == Some(OrNull(r.timeRangeTo))
    && Find(f, "noteCommitments") == Some(StringList(Sort(r.noteCommitments)))
    && Find(f, "disclosedNullifiers") == Some(StringList(Sort(r.disclosedNullifiers)))
    && Find(f, "quoteId") == Some(OrNull(r.quoteId)) && Find(f, "policyId") == Some(OrNull(r.policyId))
    && Find(f, "anchorId") == Some(OrNull(r.anchorId))
    && Find(f, "amountsDisclosed") == Some(Arr(Amounts(r.amountsDisclosed)))
    && Find(f, "proofLinks") == Some(StringList(Sort(r.proofLinks)))
  }

  /** The names of the members in their order. */
  ghost predicate InOrder(f: OrderedMap<string, Value>) {
    && |f| == 12
    && f[0].0 == "reportId" && f[1].0 == "userId" && f[2].0 == "generatedAt" && f[3].0 == "timeRangeFrom"
    && f[4].0 == "timeRangeTo" && f[5].0 == "noteCommitments" && f[6].0 == "disclosedNullifiers"
    && f[7].0 == "quoteId" && f[8].0 == "policyId" && f[9].0 == "anchorId" && f[10].0 == "amountsDisclosed"
    && f[11].0 == "proofLinks"
  }

  lemma {:induction false} FieldsInOrder(r: Report)
    ensures InOrder(PayloadFields(r))
  {
  }

  lemma {:induction false} FieldsSay(r: Report)
    ensures Says(PayloadFields(r), r)
  {
    IdsRead(r);
    RestReads(r);
    ListsRead(r);
  }

  /** Reading the text back gives an object that says what the report says. */
  lemma {:induction false} PayloadReads(r: Report)
    ensures var v := Parse(CanonicalPayload(r));
            v.Some? && v.value.Obj? && InOrder(v.value.fields) && Says(v.value.fields, r)
  {
    PayloadWellFormed(r);
    ParseStringify(Obj(PayloadFields(r)));
    FieldsInOrder(r);
    FieldsSay(r);
  }

  /** Absent values are null, lists are arrays of their strings in ascending order. */
  lemma {:induction false} ValuesInText(o: Option<string>, s: seq<string>)
    ensures OrNull(None) == Null && (o.Some? ==> OrNull(o) == Str(o.value))
    ensures StringList(Sort(s)).Arr? && |StringList(Sort(s)).items| == |s| && Sorted(Sort(s))
    ensures multiset(Sort(s)) == multiset(s)
    ensures forall i | 0 <= i < |s| :: i < |Sort(s)| && StringList(Sort(s)).items[i] == Str(Sort(s)[i])
    ensures Amounts(None) == []
  {
    SortSorts(s);
    assert |multiset(Sort(s))| == |multiset(s)|;
  }
}
