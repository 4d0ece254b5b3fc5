/**
 * Request normalisation: the raw `number` parameter becomes the pair
 * (country code, national number) through the phone-number parser, and the
 * `icon` parameter becomes a flag.
 */
module Normalize {
  import opened Wrappers
  import opened Text

  /** What the phone-number parser reports: the two parts as integers. */
  datatype PhoneNumber = PhoneNumber(countryCode: nat, nationalNumber: nat)

  /** `phonenumbers.parse(s, None)`: `None` where it raises. */
  type Parser = string -> Option<PhoneNumber>

  /** A normalised number: both parts as decimal strings. */
  datatype Key = Key(country: string, national: string) {

    /** `f"{country}{number}"`: the key of the history log and of both image folders. */
    function Joined(): string {
      country + national
    }
  }

  /** The leading `+` the parser needs to find the country by itself, added only when missing. */
  function WithPlus(raw: string): (r: string)
    ensures StartsWith(r, "+")
    ensures StartsWith(raw, "+") ==> r == raw
    ensures !StartsWith(raw, "+") ==> r[1..] == raw
  {
    if StartsWith(raw, "+") then raw else "+" + raw
  }

  /**
   * `separar_numero(raw)`: `None` (Python's `(None, None)`) when the parser
   * rejects the number; otherwise both parts as non-empty decimal strings that
   * denote exactly the parser's integers.
   */
  function Separate(raw: string, parse: Parser): (r: Option<Key>)
    ensures r.Some? <==> parse(WithPlus(raw)).Some?
    ensures r.Some? ==> r.value.country != "" && r.value.national != ""
    ensures r.Some? ==> AllDigits(r.value.country) && AllDigits(r.value.national)
    ensures r.Some? ==> DigitsValue(r.value.country) == parse(WithPlus(raw)).value.countryCode
    ensures r.Some? ==> DigitsValue(r.value.national) == parse(WithPlus(raw)).value.nationalNumber
    ensures r.Some? ==> r.value == Key(Decimal(parse(WithPlus(raw)).value.countryCode),
                                       Decimal(parse(WithPlus(raw)).value.nationalNumber))
  {
    match parse(WithPlus(raw))
    case None => None
    case Some(pn) =>
      DecimalRoundTrip(pn.countryCode);
      DecimalRoundTrip(pn.nationalNumber);
      Some(Key(Decimal(pn.countryCode), Decimal(pn.nationalNumber)))
  }

  /** Two numbers with the same key are the same number to the parser: `str()` loses nothing. */
  lemma SameKeySameNumber(a: string, b: string, parse: Parser)
    requires Separate(a, parse).Some? && Separate(a, parse) == Separate(b, parse)
    ensures parse(WithPlus(a)) == parse(WithPlus(b))
  {
    var pa, pb := parse(WithPlus(a)).value, parse(WithPlus(b)).value;
    DecimalInjective(pa.countryCode, pb.countryCode);
    DecimalInjective(pa.nationalNumber, pb.nationalNumber);
  }

  /**
   * The joined lookup key determines both parts when neither country code
   * extends the other, as holds for the country calling codes of ITU-T
   * E.164, which form a prefix code. Without that, ("1", "23") and ("12", "3")
   * share the key "123".
   */
  lemma JoinedInjective(k1: Key, k2: Key)
    requires StartsWith(k1.country, k2.country) || StartsWith(k2.country, k1.country) ==> k1.country == k2.country
    requires k1.Joined() == k2.Joined()
    ensures k1 == k2
  {
    var j := k1.Joined();
    assert StartsWith(j, k1.country) && StartsWith(j, k2.country);
    PrefixesOfOne(j, k1.country, k2.country);
    assert k1.national == j[|k1.country|..] == k2.national;
  }

  /** A number written with or without its leading `+` normalises to the same key. */
  lemma PlusIsOptional(digits: string, parse: Parser)
    requires !StartsWith(digits, "+")
    ensures Separate(digits, parse) == Separate("+" + digits, parse)
  {
    assert ("+" + digits)[..1] == "+";
  }

  lemma ExampleDigits()
    ensures Decimal(51) == "51" && Decimal(987654321) == "987654321"
  {
    assert Decimal(51) == "51" by { DecimalAppend(5, 1); }
    assert Decimal(98) == "98" by { DecimalAppend(9, 8); }
    assert Decimal(987) == "987" by { DecimalAppend(98, 7); }
    assert Decimal(9876) == "9876" by { DecimalAppend(987, 6); }
    assert Decimal(98765) == "98765" by { DecimalAppend(9876, 5); }
    assert Decimal(987654) == "987654" by { DecimalAppend(98765, 4); }
    assert Decimal(9876543) == "9876543" by { DecimalAppend(987654, 3); }
    assert Decimal(98765432) == "98765432" by { DecimalAppend(9876543, 2); }
    assert Decimal(987654321) == "987654321" by { DecimalAppend(98765432, 1); }
  }

  /** The example the interface documents: `51987654321` and `+51987654321` both give ("51", "987654321"). */
  lemma DocumentedExample(parse: Parser)
    requires parse("+51987654321") == Some(PhoneNumber(51, 987654321))
    ensures Separate("51987654321", parse) == Some(Key("51", "987654321"))
    ensures Separate("+51987654321", parse) == Some(Key("51", "987654321"))
  {
    var plain, signed := "51987654321", "+51987654321";
    assert WithPlus(plain) == signed by { assert plain[..1] == "5"; assert "+" + plain == signed; }
    assert WithPlus(signed) == signed by { assert signed[..1] == "+"; }
    ExampleDigits();
  }

  /**
   * `request.args.get('icon', 'false').lower() == 'true'`: the icon is
   * asked for exactly when the parameter is present and spells "true" in any
   * mix of upper and lower case.
   */
  function IconRequested(icon: Option<string>): (r: bool)
    ensures r <==> (icon.Some? && |icon.value| == 4
                    && (icon.value[0] == 't' || icon.value[0] == 'T')
                    && (icon.value[1] == 'r' || icon.value[1] == 'R')
                    && (icon.value[2] == 'u' || icon.value[2] == 'U')
                    && (icon.value[3] == 'e' || icon.value[3] == 'E'))
  {
    var s := icon.GetOr("false");
    var lowered := Lower(s);
    assert |s| == 4 ==> lowered == [LowerChar(s[0]), LowerChar(s[1]), LowerChar(s[2]), LowerChar(s[3])];
    lowered == "true"
  }
}
