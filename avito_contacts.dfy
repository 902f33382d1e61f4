/** The contact helpers of the Avito service: phone normalisation and the
    extraction of the first phone and the first e-mail from a contact list. */
module AvitoContacts {
  import opened JsValue

  predicate IsDigit(c: char) {
    '0' <= c <= '9'
  }

  predicate AllDigits(s: string) {
    forall i :: 0 <= i < |s| ==> IsDigit(s[i])
  }

  /** `phoneNumber.replace(/\D/g, '')`: every character other than an ASCII digit
      is dropped. Every digit is kept, as often as it occurs, and nothing else
      survives. */
  function FormatPhoneNumber(s: string): (r: string)
    ensures AllDigits(r)
    ensures |r| <= |s|
    ensures AllDigits(s) ==> r == s
  {
    if s == [] then []
    else if IsDigit(s[0]) then [s[0]] + FormatPhoneNumber(s[1..])
    else FormatPhoneNumber(s[1..])
  }

  /** Every digit of the input is kept, as often as it occurs. */
  lemma {:induction false} FormatKeepsDigits(s: string)
    ensures forall c :: IsDigit(c) ==> multiset(FormatPhoneNumber(s))[c] == multiset(s)[c]
  {
    if s != [] {
      FormatKeepsDigits(s[1..]);
      assert s == [s[0]] + s[1..];
    }
  }

  /** Normalisation keeps the digits in their original order: normalising a
      concatenation is concatenating the normalised parts. */
  lemma {:induction false} FormatDistributes(a: string, b: string)
    ensures FormatPhoneNumber(a + b) == FormatPhoneNumber(a) + FormatPhoneNumber(b)
  {
    if a == [] {
      assert a + b == b;
    } else {
      assert (a + b)[1..] == a[1..] + b;
      FormatDistributes(a[1..], b);
    }
  }

  /** Normalising twice is normalising once. */
  lemma FormatIdempotent(s: string)
    ensures FormatPhoneNumber(FormatPhoneNumber(s)) == FormatPhoneNumber(s)
  {
  }

  lemma FormatPiece0() ensures FormatPhoneNumber("+7 (") == "7" {}
  lemma FormatPiece1() ensures FormatPhoneNumber("912) ") == "912" {}
  lemma FormatPiece2() ensures FormatPhoneNumber("345-") == "345" {}
  lemma FormatPiece3() ensures FormatPhoneNumber("67-89") == "6789" {}

  /** The normalisation example: "+7 (912) 345-67-89" becomes "79123456789". */
  lemma FormatExample()
    ensures FormatPhoneNumber("+7 (" + "912) " + "345-" + "67-89") == "7" + "912" + "345" + "6789"
  {
    FormatPiece0();
    FormatPiece1();
    FormatPiece2();
    FormatPiece3();
    FormatDistributes("+7 (", "912) ");
    FormatDistributes("+7 (" + "912) ", "345-");
    FormatDistributes("+7 (" + "912) " + "345-", "67-89");
  }

  /** One entry of a contact list as the Avito API returns it. */
  datatype Contact = Contact(kind: string, value: string)

  /** Index `i` holds the first contact of the given kind. */
  predicate FirstOfKind(cs: seq<Contact>, kind: string, i: int) {
    0 <= i < |cs| && cs[i].kind == kind && forall j :: 0 <= j < i ==> cs[j].kind != kind
  }

  /** `contacts.find((contact) => contact.type === kind)`, as an index. */
  function FindFirst(cs: seq<Contact>, kind: string): (r: Option<nat>)
    ensures r.Some? ==> FirstOfKind(cs, kind, r.value)
    ensures r.None? ==> forall j :: 0 <= j < |cs| ==> cs[j].kind != kind
  {
    if cs == [] then None
    else if cs[0].kind == kind then Some(0)
    else
      match FindFirst(cs[1..], kind)
      case None => None
      case Some(i) => Some(i + 1)
  }

  /** The `{ phone, email }` record of extractContactInfo; both keys are always
      there, possibly holding undefined. */
  datatype ContactInfo = ContactInfo(phone: Value, email: Value)

  /** extractContactInfo: the first contact of type 'phone', normalised, unless it
      is missing or its value is empty; the first contact of type 'e-mail', raw. */
  function ExtractContactInfo(cs: seq<Contact>): (r: ContactInfo)
    ensures r.phone.Undefined? || r.phone.Str?
    ensures r.email.Undefined? || r.email.Str?
    ensures r.phone.Str? <==> exists i :: FirstOfKind(cs, "phone", i) && cs[i].value != ""
    ensures forall i :: FirstOfKind(cs, "phone", i) && cs[i].value != "" ==>
              r.phone == Str(FormatPhoneNumber(cs[i].value))
    ensures r.email.Str? <==> exists i :: FirstOfKind(cs, "e-mail", i)
    ensures forall i :: FirstOfKind(cs, "e-mail", i) ==> r.email == Str(cs[i].value)
  {
    var phone := FindFirst(cs, "phone");
    var email := FindFirst(cs, "e-mail");
    ContactInfo(
      if phone.Some? && cs[phone.value].value != "" then Str(FormatPhoneNumber(cs[phone.value].value)) else Undefined,
      if email.Some? then Str(cs[email.value].value) else Undefined)
  }

  /** A phone that extractContactInfo reports is digits only. */
  lemma ExtractedPhoneIsDigits(cs: seq<Contact>)
    ensures ExtractContactInfo(cs).phone.Str? ==> AllDigits(ExtractContactInfo(cs).phone.s)
  {
  }
}
