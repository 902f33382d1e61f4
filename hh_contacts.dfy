/** parseContacts of the hh.ru queue worker: one pass over a resume's contact
    list that keeps overwriting a phone and an e-mail, both starting as "N/A".
    The worker does not call it; it is modelled all the same. */
module HhContacts {
  import opened JsValue

  const NA := Str("N/A")

  /** `contact?.type?.id === kind`. */
  predicate OfType(contact: Value, kind: string) {
    Prop(Prop(contact, "type"), "id") == Str(kind)
  }

  /** The phone a `cell` contact gives: its value, the `formatted` field of an
      object value, and "N/A" for a falsy one. Never falsy. */
  function CellPhone(contact: Value): (r: Value)
    ensures Truthy(r)
  {
    var v := Prop(contact, "value");
    if !Truthy(v) then NA
    else if v.Obj? || v.Arr? then (if Truthy(Prop(v, "formatted")) then Prop(v, "formatted") else NA)
    else v
  }

  /** The e-mail an `email` contact gives: its value, or "N/A" when falsy. */
  function EmailOf(contact: Value): (r: Value)
    ensures Truthy(r)
  {
    var v := Prop(contact, "value");
    if Truthy(v) then v else NA
  }

  /** The phone after the loop has seen `items`. */
  function PhoneAfter(items: seq<Value>): (r: Value)
    ensures Truthy(r)
  {
    if items == [] then NA
    else if OfType(items[|items| - 1], "cell") then CellPhone(items[|items| - 1])
    else PhoneAfter(items[..|items| - 1])
  }

  /** The e-mail after the loop has seen `items`. */
  function EmailAfter(items: seq<Value>): (r: Value)
    ensures Truthy(r)
  {
    if items == [] then NA
    else if OfType(items[|items| - 1], "email") then EmailOf(items[|items| - 1])
    else EmailAfter(items[..|items| - 1])
  }

  /** parseContacts; anything but an array gives "N/A" twice. */
  method ParseContacts(contactData: Value) returns (phone: Value, email: Value)
    ensures contactData.Arr? ==> phone == PhoneAfter(contactData.items) && email == EmailAfter(contactData.items)
    ensures !contactData.Arr? ==> phone == NA && email == NA
  {
    phone := NA;
    email := NA;
    if contactData.Arr? {
      var items := contactData.items;
      var i := 0;
      while i < |items|
        invariant 0 <= i <= |items|
        invariant phone == PhoneAfter(items[..i]) && email == EmailAfter(items[..i])
      {
        var contact := items[i];
        if OfType(contact, "cell") {
          phone := CellPhone(contact);
        } else if OfType(contact, "email") {
          email := EmailOf(contact);
        }
        assert items[..i + 1][..i] == items[..i];
        i := i + 1;
      }
      assert items[..|items|] == items;
    }
  }

  /** The last `cell` contact decides the phone. */
  lemma {:induction false} LastCellWins(items: seq<Value>, j: nat)
    requires j < |items| && OfType(items[j], "cell")
    requires forall k :: j < k < |items| ==> !OfType(items[k], "cell")
    ensures PhoneAfter(items) == CellPhone(items[j])
  {
    if j < |items| - 1 {
      var init := items[..|items| - 1];
      assert forall k :: j < k < |init| ==> init[k] == items[k];
      LastCellWins(init, j);
    }
  }

  /** Without a `cell` contact the phone stays "N/A". */
  lemma {:induction false} NoCellNoPhone(items: seq<Value>)
    requires forall k :: 0 <= k < |items| ==> !OfType(items[k], "cell")
    ensures PhoneAfter(items) == NA
  {
    if items != [] {
      var init := items[..|items| - 1];
      assert forall k :: 0 <= k < |init| ==> init[k] == items[k];
      NoCellNoPhone(init);
    }
  }

  /** The last `email` contact decides the e-mail. */
  lemma {:induction false} LastEmailWins(items: seq<Value>, j: nat)
    requires j < |items| && OfType(items[j], "email")
    requires forall k :: j < k < |items| ==> !OfType(items[k], "email")
    ensures EmailAfter(items) == EmailOf(items[j])
  {
    if j < |items| - 1 {
      var init := items[..|items| - 1];
      assert forall k :: j < k < |init| ==> init[k] == items[k];
      LastEmailWins(init, j);
    }
  }

  /** Without an `email` contact the e-mail stays "N/A". */
  lemma {:induction false} NoEmailNoAddress(items: seq<Value>)
    requires forall k :: 0 <= k < |items| ==> !OfType(items[k], "email")
    ensures EmailAfter(items) == NA
  {
    if items != [] {
      var init := items[..|items| - 1];
      assert forall k :: 0 <= k < |init| ==> init[k] == items[k];
      NoEmailNoAddress(init);
    }
  }

  /** An object value gives its `formatted` field, or "N/A" without one. */
  lemma ObjectPhoneUsesFormatted(contact: Value)
    requires Prop(contact, "value").Obj?
    ensures CellPhone(contact) ==
              if Truthy(Prop(Prop(contact, "value"), "formatted")) then Prop(Prop(contact, "value"), "formatted") else NA
  {
  }
}
