/** The two dedup axes of the Avito service: an application key and an
    applicant-on-vacancy key. */
module AvitoDedup {
  import opened JsValue
  import opened AvitoKeys
  import opened RedisStore

  /** The key of one application: `makeRedisKey({ apply_id })`. */
  function ApplyKey(applyId: string): string {
    MakeRedisKey([(ApplyIdName, Str(applyId))])
  }

  /** The key of one applicant on one vacancy:
      `makeRedisKey({ vacancy_id, applicant_id })`. */
  function ApplicantKey(vacancyId: Value, applicantId: Value): string
    requires !vacancyId.Arr? && !applicantId.Arr?
  {
    MakeRedisKey([(VacancyIdName, vacancyId), (ApplicantIdName, applicantId)])
  }

  lemma AllUnreserved(s: string)
    requires s == "apply_id" || s == "applicant_id" || s == "vacancy_id"
    ensures Escape(s) == s
  {
    EscapeUnreserved(s);
  }

  lemma SingleKeyLayout(k: string, v: Value)
    requires !v.Arr?
    ensures MakeRedisKey([(k, v)]) == "avito#" + Field((k, v))
  {
    assert SortEntries([(k, v)]) == [(k, v)];
  }

  lemma TwoKeyLayout(x: Entry, y: Entry)
    requires !x.1.Arr? && !y.1.Arr? && EntryLess(y, x)
    ensures MakeRedisKey([x, y]) == "avito#" + Field(y) + "," + Field(x)
  {
    SortTwo(x, y);
    FieldsTwo(y, x);
  }

  lemma SortTwo(x: Entry, y: Entry)
    requires EntryLess(y, x)
    ensures SortEntries([x, y]) == [y, x]
  {
    assert [x, y][1..] == [y];
  }

  lemma FieldsTwo(a: Entry, b: Entry)
    requires !a.1.Arr? && !b.1.Arr?
    ensures Fields([a, b]) == Field(a) + "," + Field(b)
  {
    assert [a, b][1..] == [b];
  }

  /** A field whose name needs no escaping. */
  lemma NamedField(k: string, v: Value)
    requires k == ApplyIdName || k == ApplicantIdName || k == VacancyIdName
    requires !v.Arr?
    ensures Field((k, v)) == k + "=" + QsValue(v)
  {
    AllUnreserved(k);
  }

  lemma ApplyKeyLayout(applyId: string)
    ensures ApplyKey(applyId) == "avito#" + Field((ApplyIdName, Str(applyId)))
    ensures Field((ApplyIdName, Str(applyId))) == ApplyIdName + "=" + Escape(applyId)
  {
    SingleKeyLayout(ApplyIdName, Str(applyId));
    NamedField(ApplyIdName, Str(applyId));
  }

  /** `applicant_id` sorts before `vacancy_id`. */
  lemma ApplicantSortsFirst(vacancyId: Value, applicantId: Value)
    ensures EntryLess((ApplicantIdName, applicantId), (VacancyIdName, vacancyId))
  {
    EntryStringShape((ApplicantIdName, applicantId));
    EntryStringShape((VacancyIdName, vacancyId));
  }

  lemma ApplicantKeyLayout(vacancyId: Value, applicantId: Value)
    requires !vacancyId.Arr? && !applicantId.Arr?
    ensures ApplicantKey(vacancyId, applicantId) ==
            "avito#" + Field((ApplicantIdName, applicantId)) + "," + Field((VacancyIdName, vacancyId))
    ensures Field((ApplicantIdName, applicantId)) == ApplicantIdName + "=" + QsValue(applicantId)
    ensures Field((VacancyIdName, vacancyId)) == VacancyIdName + "=" + QsValue(vacancyId)
  {
    ApplicantSortsFirst(vacancyId, applicantId);
    TwoKeyLayout((VacancyIdName, vacancyId), (ApplicantIdName, applicantId));
    NamedField(ApplicantIdName, applicantId);
    NamedField(VacancyIdName, vacancyId);
  }

  /** The documented example: `makeRedisKey({ apply_id: 123 })` is `"avito#apply_id=123"`.
      The number is a parameter fixed by the precondition so that the literal
      is not unfolded through the recursive digit and escape functions. */
  lemma MakeRedisKeyExample(n: int)
    requires n == 123
    ensures MakeRedisKey([(ApplyIdName, Num(n))]) == "avito#apply_id=123"
  {
    SingleKeyLayout(ApplyIdName, Num(n));
    NamedField(ApplyIdName, Num(n));
    Decimal123(n);
    ExampleText();
  }

  lemma Decimal123(n: int)
    requires n == 123
    ensures IntToString(n) == "123"
  {
    assert NatToString(n) == NatToString(12) + "3";
    assert NatToString(12) == "12";
  }

  lemma ExampleText()
    ensures "avito#" + (ApplyIdName + "=" + "123") == "avito#apply_id=123"
  {
  }

  function ParsedApply(applyId: string): seq<(string, string)> {
    [(ApplyIdName, applyId)]
  }

  function ParsedApplicant(vacancyId: Value, applicantId: Value): seq<(string, string)> {
    [(ApplicantIdName, PlainValue(applicantId)), (VacancyIdName, PlainValue(vacancyId))]
  }

  lemma ParseOneKey(x: Entry)
    requires !x.1.Arr?
    ensures ParseKey(MakeRedisKey([x])) == Some([(x.0, PlainValue(x.1))])
  {
    ParseMakeRedisKey([x]);
    assert SortEntries([x]) == [x];
    assert Rendered([x]) == [(x.0, PlainValue(x.1))];
  }

  lemma ParseTwoKey(x: Entry, y: Entry)
    requires !x.1.Arr? && !y.1.Arr? && EntryLess(y, x)
    ensures ParseKey(MakeRedisKey([x, y])) == Some([(y.0, PlainValue(y.1)), (x.0, PlainValue(x.1))])
  {
    ParseMakeRedisKey([x, y]);
    assert [x, y][1..] == [y];
    assert SortEntries([x, y]) == [y, x];
    assert Rendered([y, x]) == [(y.0, PlainValue(y.1)), (x.0, PlainValue(x.1))];
  }

  /** What ParseKey reads back from the two kinds of key. */
  lemma ParseApplyKey(applyId: string)
    ensures ParseKey(ApplyKey(applyId)) == Some(ParsedApply(applyId))
  {
    ParseOneKey((ApplyIdName, Str(applyId)));
  }

  lemma ParseApplicantKey(vacancyId: Value, applicantId: Value)
    requires !vacancyId.Arr? && !applicantId.Arr?
    ensures ParseKey(ApplicantKey(vacancyId, applicantId)) == Some(ParsedApplicant(vacancyId, applicantId))
  {
    ApplicantSortsFirst(vacancyId, applicantId);
    ParseTwoKey((VacancyIdName, vacancyId), (ApplicantIdName, applicantId));
  }

  /** An application key is never an applicant key: the two dedup axes never
      share a Redis entry. */
  lemma KeysNeverCollide(applyId: string, vacancyId: Value, applicantId: Value)
    requires !vacancyId.Arr? && !applicantId.Arr?
    ensures ApplyKey(applyId) != ApplicantKey(vacancyId, applicantId)
  {
    ParseApplyKey(applyId);
    ParseApplicantKey(vacancyId, applicantId);
  }

  lemma ApplyKeyInjective(a: string, b: string)
    ensures ApplyKey(a) == ApplyKey(b) <==> a == b
  {
    ParseApplyKey(a);
    ParseApplyKey(b);
  }

  /** Two applicant keys are equal iff both ids are written the same by `String`
      (so a numeric id and its decimal string share a key). */
  lemma ApplicantKeyInjective(v1: Value, a1: Value, v2: Value, a2: Value)
    requires !v1.Arr? && !a1.Arr? && !v2.Arr? && !a2.Arr?
    ensures ApplicantKey(v1, a1) == ApplicantKey(v2, a2) <==>
            PlainValue(v1) == PlainValue(v2) && PlainValue(a1) == PlainValue(a2)
  {
    ParseApplicantKey(v1, a1);
    ParseApplicantKey(v2, a2);
    if PlainValue(v1) == PlainValue(v2) && PlainValue(a1) == PlainValue(a2) {
      ApplicantKeyLayout(v1, a1);
      ApplicantKeyLayout(v2, a2);
      QsValueIsEscaped(v1);
      QsValueIsEscaped(v2);
      QsValueIsEscaped(a1);
      QsValueIsEscaped(a2);
    }
  }

  /** With the types the service passes (a numeric vacancy id, a string applicant
      id), applicant keys are equal exactly when both ids are. */
  lemma ApplicantKeyTypedInjective(v1: int, a1: string, v2: int, a2: string)
    ensures ApplicantKey(Num(v1), Str(a1)) == ApplicantKey(Num(v2), Str(a2)) <==> v1 == v2 && a1 == a2
  {
    ApplicantKeyInjective(Num(v1), Str(a1), Num(v2), Str(a2));
    PlainNumInjective(v1, v2);
  }

  lemma PlainNumInjective(m: int, n: int)
    ensures PlainValue(Num(m)) == PlainValue(Num(n)) <==> m == n
  {
    if IntToString(m) == IntToString(n) {
      IntToStringInjective(m, n);
    }
  }

  /** A key whose `GET` reads back truthy: present, with a non-empty value. */
  predicate Marked(store: Store, key: string) {
    Truthy(Get(store, key))
  }

  /** The check and the mark over two arbitrary keys; the Avito functions below
      instantiate them with the application key and the applicant key. */
  function EitherMarked(store: Store, k1: string, k2: string): (r: bool)
    ensures r <==> (k1 in store && store[k1].value != "") || (k2 in store && store[k2].value != "")
  {
    Marked(store, k1) || Marked(store, k2)
  }

  function MarkBoth(store: Store, k1: string, k2: string): (r: Store)
    ensures r.Keys == store.Keys + {k1, k2}
    ensures r[k1] == Stored("1", None) && r[k2] == Stored("1", None)
    ensures forall k :: k in store && k != k1 && k != k2 ==> r[k] == store[k]
  {
    Set(Set(store, k1, "1", None), k2, "1", None)
  }

  lemma MarkBothFrame(store: Store, k1: string, k2: string, j1: string, j2: string)
    requires j1 != k2 && j2 != k1
    ensures EitherMarked(MarkBoth(store, k1, k2), j1, j2) <==> EitherMarked(store, j1, j2) || j1 == k1 || j2 == k2
  {
  }

  /** isDuplicate: the application was seen before, under its own id or as the
      same applicant on the same vacancy. */
  function IsDuplicate(store: Store, applyId: string, vacancyId: Value, applicantId: Value): (r: bool)
    requires !vacancyId.Arr? && !applicantId.Arr?
    ensures r <==>
      (ApplyKey(applyId) in store && store[ApplyKey(applyId)].value != "") ||
      (ApplicantKey(vacancyId, applicantId) in store && store[ApplicantKey(vacancyId, applicantId)].value != "")
  {
    EitherMarked(store, ApplyKey(applyId), ApplicantKey(vacancyId, applicantId))
  }

  /** The store after markApplicationProcessed: both keys hold "1" with no
      expiry, and every other key is as it was. */
  function MarkedStore(store: Store, applyId: string, vacancyId: Value, applicantId: Value): (r: Store)
    requires !vacancyId.Arr? && !applicantId.Arr?
    ensures r.Keys == store.Keys + {ApplyKey(applyId), ApplicantKey(vacancyId, applicantId)}
    ensures r[ApplyKey(applyId)] == Stored("1", None)
    ensures r[ApplicantKey(vacancyId, applicantId)] == Stored("1", None)
    ensures forall k :: k in store && k != ApplyKey(applyId) && k != ApplicantKey(vacancyId, applicantId) ==>
              r[k] == store[k]
  {
    MarkBoth(store, ApplyKey(applyId), ApplicantKey(vacancyId, applicantId))
  }

  /** Once marked, the same application is a duplicate. */
  lemma MarkedIsDuplicate(store: Store, applyId: string, vacancyId: Value, applicantId: Value)
    requires !vacancyId.Arr? && !applicantId.Arr?
    ensures IsDuplicate(MarkedStore(store, applyId, vacancyId, applicantId), applyId, vacancyId, applicantId)
  {
  }

  /** Marking one application makes exactly those applications duplicates that
      share its id, or its applicant and vacancy as `String` writes them; the
      dedup state of every other application is untouched. */
  lemma MarkAffectsOnlyItsApplication(store: Store, applyId: string, vacancyId: Value, applicantId: Value,
                                      applyId2: string, vacancyId2: Value, applicantId2: Value)
    requires !vacancyId.Arr? && !applicantId.Arr? && !vacancyId2.Arr? && !applicantId2.Arr?
    ensures IsDuplicate(MarkedStore(store, applyId, vacancyId, applicantId), applyId2, vacancyId2, applicantId2) <==>
            IsDuplicate(store, applyId2, vacancyId2, applicantId2) || applyId2 == applyId ||
            (PlainValue(vacancyId2) == PlainValue(vacancyId) && PlainValue(applicantId2) == PlainValue(applicantId))
  {
    ApplyKeyInjective(applyId, applyId2);
    ApplicantKeyInjective(vacancyId, applicantId, vacancyId2, applicantId2);
    KeysNeverCollide(applyId, vacancyId2, applicantId2);
    KeysNeverCollide(applyId2, vacancyId, applicantId);
    MarkBothFrame(store, ApplyKey(applyId), ApplicantKey(vacancyId, applicantId),
                  ApplyKey(applyId2), ApplicantKey(vacancyId2, applicantId2));
  }
}
