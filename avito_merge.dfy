/** How processApplyWebhook assembles the resume it forwards: the resume fetched
    with its contacts (getResume), and the layered object spread that merges it
    with the applicant of the application. */
module AvitoMerge {
  import opened JsValue
  import opened AvitoContacts

  /** The reply of `GET /job/v1/resumes/<id>/contacts/`; `contacts` is None when
      the reply has no contact array. */
  datatype ContactsReply = ContactsReply(name: Value, fullName: Value, contacts: Option<seq<Contact>>)

  /** The `{ phone, email }` record as object fields. */
  function InfoFields(info: ContactInfo): map<string, Value> {
    map["phone" := info.phone, "email" := info.email]
  }

  /** getResume: the resume with its `data` replaced by the contact name, the
      full name and the first phone and e-mail of its contacts. Every failure
      inside (either GET, a reply without contacts, a resume that is not an
      object to write `data` into) is swallowed and gives null. */
  function GetResume(resume: Result<Value, HttpError>, contacts: Result<ContactsReply, HttpError>): (r: Value)
    ensures r.Null? || r.Obj?
    ensures r.Obj? <==> resume.Ok? && resume.value.Obj? && contacts.Ok? && contacts.value.contacts.Some?
    ensures r.Obj? ==> forall k :: k != "data" ==> Prop(r, k) == Prop(resume.value, k)
    ensures r.Obj? ==> (Prop(r, "data") ==
              Obj(map["name" := contacts.value.name, "full_name" := contacts.value.fullName] +
                  InfoFields(ExtractContactInfo(contacts.value.contacts.value))))
  {
    if resume.Err? || contacts.Err? || contacts.value.contacts.None? || !resume.value.Obj? then Null
    else
      var c := contacts.value;
      var data := map["name" := c.name, "full_name" := c.fullName] + InfoFields(ExtractContactInfo(c.contacts.value));
      Obj(resume.value.fields["data" := Obj(data)])
  }

  /** The resume layer of the merge: `(await getResume(resumeId)) || {}` when the
      applicant names a resume, `{}` otherwise. It is always an object: a failed
      fetch never stops the processing. */
  function ResumeLayer(resumeId: Value, resume: Result<Value, HttpError>, contacts: Result<ContactsReply, HttpError>): (r: Value)
    ensures r.Obj?
    ensures !Truthy(resumeId) ==> r == Obj(map[])
    ensures Truthy(resumeId) && GetResume(resume, contacts).Null? ==> r == Obj(map[])
    ensures Truthy(resumeId) && GetResume(resume, contacts).Obj? ==> r == GetResume(resume, contacts)
  {
    if Truthy(resumeId) then
      var got := GetResume(resume, contacts);
      if got.Null? then Obj(map[]) else got
    else Obj(map[])
  }

  /** `phones?.map(phone => ({ type: 'phone', value: phone.value })) || []`. */
  function PhoneContacts(phones: Option<seq<string>>): (r: seq<Contact>)
    ensures phones.None? ==> r == []
    ensures phones.Some? ==> (|r| == |phones.value| &&
              forall i :: 0 <= i < |r| ==> r[i] == Contact("phone", phones.value[i]))
  {
    match phones
    case None => []
    case Some(ps) => seq(|ps|, i requires 0 <= i < |ps| => Contact("phone", ps[i]))
  }

  predicate HasPhones(phones: Option<seq<string>>) {
    phones.Some? && |phones.value| > 0
  }

  /** The contact layer: the contact info of the application phones. It never
      holds an e-mail, and its phone is the first phone normalised, unless that
      phone is empty. */
  lemma ContactLayer(phones: Option<seq<string>>)
    ensures ExtractContactInfo(PhoneContacts(phones)).email == Undefined
    ensures ExtractContactInfo(PhoneContacts(phones)).phone ==
              if HasPhones(phones) && phones.value[0] != "" then Str(FormatPhoneNumber(phones.value[0])) else Undefined
  {
    var cs := PhoneContacts(phones);
    assert forall i :: 0 <= i < |cs| ==> cs[i].kind == "phone";
    if HasPhones(phones) {
      assert FirstOfKind(cs, "phone", 0);
    }
  }

  /** The `data` of the merge before the phone fallback: the applicant's data,
      overridden by the resume's, overridden by the contact layer `info`. */
  function MergedData(applicant: Value, resume: Value, info: ContactInfo): map<string, Value> {
    Spread(Prop(applicant, "data")) + Spread(Prop(resume, "data")) + InfoFields(info)
  }

  /** mergedData after the phone fallback: the applicant's own fields,
      overridden by the resume's, and a `data` object layered the same way with
      the contact layer on top; when the merged phone is falsy and the
      application has phones, the phone becomes the first one normalised. */
  function MergeApplicant(applicant: Value, resume: Value, phones: Option<seq<string>>): (r: Value)
    ensures r.Obj? && "data" in r.fields && r.fields["data"].Obj?
    ensures forall k :: k != "data" ==>
              Prop(r, k) == if k in Spread(resume) then Spread(resume)[k] else Prop(applicant, k)
    ensures forall k :: k != "phone" && k != "email" ==>
              Prop(r.fields["data"], k) ==
                if k in Spread(Prop(resume, "data")) then Spread(Prop(resume, "data"))[k]
                else Prop(Prop(applicant, "data"), k)
    ensures "phone" in r.fields["data"].fields && "email" in r.fields["data"].fields
  {
    var d := FallbackData(applicant, resume, ExtractContactInfo(PhoneContacts(phones)), phones);
    LayeredProps(applicant, resume, map["data" := Obj(d)]);
    FallbackDataShape(applicant, resume, ExtractContactInfo(PhoneContacts(phones)), phones);
    Obj(Spread(applicant) + Spread(resume) + map["data" := Obj(d)])
  }

  /** The merged `data` under contact layer `info`, after the phone fallback. */
  function FallbackData(applicant: Value, resume: Value, info: ContactInfo, phones: Option<seq<string>>): map<string, Value> {
    var data := MergedData(applicant, resume, info);
    if !Truthy(data["phone"]) && HasPhones(phones) then data["phone" := Str(FormatPhoneNumber(phones.value[0]))]
    else data
  }

  /** Whatever the contact layer, the merged `data` has a phone and an e-mail,
      and reads every other key from the resume's data, then the applicant's. */
  lemma FallbackDataShape(applicant: Value, resume: Value, info: ContactInfo, phones: Option<seq<string>>)
    ensures var d := FallbackData(applicant, resume, info, phones);
            "phone" in d && "email" in d &&
            forall k :: k != "phone" && k != "email" ==>
              Prop(Obj(d), k) ==
                if k in Spread(Prop(resume, "data")) then Spread(Prop(resume, "data"))[k]
                else Prop(Prop(applicant, "data"), k)
  {
    LayeredProps(Prop(applicant, "data"), Prop(resume, "data"), InfoFields(info));
  }

  /** `{ ...a, ...b, ...top }`: a key that `top` lacks reads as in `b` if `b`
      has it, and as in `a` otherwise. */
  lemma LayeredProps(a: Value, b: Value, top: map<string, Value>)
    ensures forall k :: k !in top ==>
              Prop(Obj(Spread(a) + Spread(b) + top), k) == if k in Spread(b) then Spread(b)[k] else Prop(a, k)
  {
  }

  /** The merged e-mail is always undefined: the contact layer writes `email`
      even though the application phones never hold one, hiding the resume's. */
  lemma MergedEmailIsUndefined(applicant: Value, resume: Value, phones: Option<seq<string>>)
    ensures Prop(Prop(MergeApplicant(applicant, resume, phones), "data"), "email") == Undefined
  {
    ContactLayer(phones);
  }

  /** The merged phone is the first application phone normalised, or undefined
      when the application has no phones, whatever the resume says. */
  lemma MergedPhone(applicant: Value, resume: Value, phones: Option<seq<string>>)
    ensures Prop(Prop(MergeApplicant(applicant, resume, phones), "data"), "phone") ==
              if HasPhones(phones) then Str(FormatPhoneNumber(phones.value[0])) else Undefined
  {
    ContactLayer(phones);
  }
}
