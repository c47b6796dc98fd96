// backend/src/schemas/customerSchema.ts
module CustomerSchema {
  import opened Common
  import opened Valibot

  // ---------------------------------------------------------------------
  // phone: minLength(10), maxLength(15) and
  // `^[+]?[(]?[0-9]{3}[)]?[-\s.]?[0-9]{3}[-\s.]?[0-9]{4,6}$`

  /** `[-\s.]` */
  predicate IsPhoneSeparator(c: char)
  {
    c == '-' || IsWhitespace(c) || c == '.'
  }

  predicate IsPlus(c: char)
  {
    c == '+'
  }

  predicate IsOpen(c: char)
  {
    c == '('
  }

  predicate IsClose(c: char)
  {
    c == ')'
  }

  /** What each group of the pattern matched; an optional group holds "" or
      its one character. */
  datatype PhoneParts = PhoneParts(
    plus: string, open: string, area: string, close: string,
    sep1: string, exchange: string, sep2: string, line: string)

  predicate Optional(s: string, p: char -> bool)
  {
    |s| <= 1 && AllChars(s, p)
  }

  predicate WellFormedPhone(p: PhoneParts)
  {
    && Optional(p.plus, IsPlus)
    && Optional(p.open, IsOpen)
    && |p.area| == 3 && AllChars(p.area, IsDigit)
    && Optional(p.close, IsClose)
    && Optional(p.sep1, IsPhoneSeparator)
    && |p.exchange| == 3 && AllChars(p.exchange, IsDigit)
    && Optional(p.sep2, IsPhoneSeparator)
    && 4 <= |p.line| <= 6 && AllChars(p.line, IsDigit)
  }

  function RenderPhone(p: PhoneParts): string
  {
    p.plus + (p.open + (p.area + (p.close + (p.sep1 + (p.exchange + (p.sep2 + p.line))))))
  }

  /** The language of the pattern. */
  ghost predicate PhonePattern(s: string)
  {
    exists p :: WellFormedPhone(p) && RenderPhone(p) == s
  }

  /** `c?` matched greedily: the character if `s` starts with one, then the rest. */
  function TakeOptional(s: string, p: char -> bool): (r: (string, string))
    ensures Optional(r.0, p) && r.0 + r.1 == s
    ensures |s| > 0 && p(s[0]) ==> |r.0| == 1
  {
    if |s| > 0 && p(s[0]) then (s[..1], s[1..]) else ([], s)
  }

  /** Greedy matching of `x + y` takes exactly `x` when `x` is a match and,
      if `x` is empty, `y` does not start with a character `p` accepts. */
  lemma TakeOptionalSplits(x: string, y: string, p: char -> bool)
    requires Optional(x, p)
    requires x == [] ==> |y| == 0 || !p(y[0])
    ensures TakeOptional(x + y, p) == (x, y)
  {
    if x != [] {
      assert (x + y)[0] == x[0];
      assert (x + y)[..1] == x && (x + y)[1..] == y;
    } else {
      assert x + y == y;
    }
  }

  /** Matches the pattern left to right; every optional group is greedy, and
      backtracking never helps, since the character after an optional group
      that matched nothing is never one that group accepts. */
  function ParsePhone(s: string): (r: Option<PhoneParts>)
    ensures r.Some? ==> WellFormedPhone(r.value) && RenderPhone(r.value) == s
  {
    var (plus, s1) := TakeOptional(s, IsPlus);
    var (open, s2) := TakeOptional(s1, IsOpen);
    if |s2| < 3 then None
    else
      var (area, s3) := (s2[..3], s2[3..]);
      TakeDrop(s2, 3);
      var (close, s4) := TakeOptional(s3, IsClose);
      var (sep1, s5) := TakeOptional(s4, IsPhoneSeparator);
      if |s5| < 3 then None
      else
        var (exchange, s6) := (s5[..3], s5[3..]);
        TakeDrop(s5, 3);
        var (sep2, line) := TakeOptional(s6, IsPhoneSeparator);
        var p := PhoneParts(plus, open, area, close, sep1, exchange, sep2, line);
        RenderPieces(p, s, s1, s2, s3, s4, s5, s6);
        if WellFormedPhone(p) then Some(p) else None
  }

  /** A string is its first n characters followed by the rest. */
  lemma TakeDrop(s: string, n: nat)
    requires n <= |s|
    ensures s[..n] + s[n..] == s
  {
  }

  /** The pieces the matcher takes off one after the other, put back
      together, are its input. */
  lemma RenderPieces(p: PhoneParts, s: string, s1: string, s2: string, s3: string, s4: string, s5: string, s6: string)
    requires s == p.plus + s1 && s1 == p.open + s2 && s2 == p.area + s3 && s3 == p.close + s4
    requires s4 == p.sep1 + s5 && s5 == p.exchange + s6 && s6 == p.sep2 + p.line
    ensures RenderPhone(p) == s
  {
  }

  /** The suffix of a phone that starts with the area code. */
  function FromArea(p: PhoneParts): string
  {
    p.area + (p.close + (p.sep1 + (p.exchange + (p.sep2 + p.line))))
  }

  /** The suffix that starts with the exchange. */
  function FromExchange(p: PhoneParts): string
  {
    p.exchange + (p.sep2 + p.line)
  }

  /** One unfolding of the matcher, given what each step takes. */
  lemma ParsePhoneAt(s: string, s1: string, s2: string, s4: string, s5: string, p: PhoneParts)
    requires TakeOptional(s, IsPlus) == (p.plus, s1) && TakeOptional(s1, IsOpen) == (p.open, s2)
    requires |s2| >= 3 && s2[..3] == p.area
    requires TakeOptional(s2[3..], IsClose) == (p.close, s4) && TakeOptional(s4, IsPhoneSeparator) == (p.sep1, s5)
    requires |s5| >= 3 && s5[..3] == p.exchange
    requires TakeOptional(s5[3..], IsPhoneSeparator) == (p.sep2, p.line)
    requires WellFormedPhone(p)
    ensures ParsePhone(s) == Some(p)
  {
  }

  /** The optional "+" and "(" take exactly their groups. */
  lemma SplitsBeforeArea(p: PhoneParts)
    requires WellFormedPhone(p)
    ensures RenderPhone(p) == p.plus + (p.open + FromArea(p))
    ensures TakeOptional(RenderPhone(p), IsPlus) == (p.plus, p.open + FromArea(p))
    ensures TakeOptional(p.open + FromArea(p), IsOpen) == (p.open, FromArea(p))
  {
    var area := FromArea(p);
    assert area[0] == p.area[0];
    assert (p.open + area)[0] == if p.open == [] then area[0] else p.open[0];
    TakeOptionalSplits(p.plus, p.open + area, IsPlus);
    TakeOptionalSplits(p.open, area, IsOpen);
  }

  /** The area code, then the optional ")" and separator. */
  lemma SplitsBeforeExchange(p: PhoneParts)
    requires WellFormedPhone(p)
    ensures |FromArea(p)| >= 3 && FromArea(p)[..3] == p.area
    ensures TakeOptional(FromArea(p)[3..], IsClose) == (p.close, p.sep1 + FromExchange(p))
    ensures TakeOptional(p.sep1 + FromExchange(p), IsPhoneSeparator) == (p.sep1, FromExchange(p))
  {
    var area := FromArea(p);
    var exch := FromExchange(p);
    assert exch[0] == p.exchange[0];
    assert area == p.area + (p.close + (p.sep1 + exch));
    assert area[..3] == p.area && area[3..] == p.close + (p.sep1 + exch);
    assert (p.sep1 + exch)[0] == if p.sep1 == [] then exch[0] else p.sep1[0];
    TakeOptionalSplits(p.close, p.sep1 + exch, IsClose);
    TakeOptionalSplits(p.sep1, exch, IsPhoneSeparator);
  }

  /** The exchange, then the optional separator and the line number. */
  lemma SplitsAfterExchange(p: PhoneParts)
    requires WellFormedPhone(p)
    ensures |FromExchange(p)| >= 3 && FromExchange(p)[..3] == p.exchange
    ensures TakeOptional(FromExchange(p)[3..], IsPhoneSeparator) == (p.sep2, p.line)
  {
    var exch := FromExchange(p);
    assert exch[..3] == p.exchange && exch[3..] == p.sep2 + p.line;
    assert p.sep2 == [] ==> (p.sep2 + p.line)[0] == p.line[0];
    TakeOptionalSplits(p.sep2, p.line, IsPhoneSeparator);
  }

  /** Every string of the pattern is matched, with its own groups. */
  lemma ParsePhoneComplete(p: PhoneParts)
    requires WellFormedPhone(p)
    ensures ParsePhone(RenderPhone(p)) == Some(p)
  {
    SplitsBeforeArea(p);
    SplitsBeforeExchange(p);
    SplitsAfterExchange(p);
    ParsePhoneAt(RenderPhone(p), p.open + FromArea(p), FromArea(p), p.sep1 + FromExchange(p), FromExchange(p), p);
  }

  /** The matcher decides the pattern. */
  lemma ParsePhoneDecidesPattern(s: string)
    ensures ParsePhone(s).Some? <==> PhonePattern(s)
  {
    if PhonePattern(s) {
      var p :| WellFormedPhone(p) && RenderPhone(p) == s;
      ParsePhoneComplete(p);
    }
  }

  predicate PhoneRule(s: string)
  {
    MinLength(s, 10) && MaxLength(s, 15) && ParsePhone(s).Some?
  }

  /** The number of decimal digits in a string. */
  function DigitCount(s: string): (n: nat)
    ensures n <= |s|
  {
    if |s| == 0 then 0 else (if IsDigit(s[0]) then 1 else 0) + DigitCount(s[1..])
  }

  lemma {:induction false} DigitCountAppend(a: string, b: string)
    ensures DigitCount(a + b) == DigitCount(a) + DigitCount(b)
  {
    if |a| > 0 {
      assert (a + b)[0] == a[0];
      assert (a + b)[1..] == a[1..] + b;
      DigitCountAppend(a[1..], b);
    } else {
      assert a + b == b;
    }
  }

  lemma {:induction false} DigitCountAll(s: string)
    requires AllChars(s, IsDigit)
    ensures DigitCount(s) == |s|
  {
    if |s| > 0 {
      assert AllChars(s[1..], IsDigit) by {
        forall i | 0 <= i < |s[1..]| ensures IsDigit(s[1..][i]) { assert s[1..][i] == s[i + 1]; }
      }
      DigitCountAll(s[1..]);
    }
  }

  lemma DigitCountOptional(s: string, p: char -> bool)
    requires Optional(s, p)
    requires forall c :: p(c) ==> !IsDigit(c)
    ensures DigitCount(s) == 0
  {
    if |s| == 1 {
      assert s[1..] == [];
    }
  }

  /** A phone of the pattern holds 10 to 12 digits and 10 to 17 characters,
      so `maxLength(15)` can refuse a number the pattern accepts. */
  lemma {:induction false} PhoneDigitsAndLength(p: PhoneParts)
    requires WellFormedPhone(p)
    ensures 10 <= DigitCount(RenderPhone(p)) <= 12
    ensures 10 <= |RenderPhone(p)| <= 17
  {
    DigitCountOptional(p.plus, IsPlus);
    DigitCountOptional(p.open, IsOpen);
    DigitCountOptional(p.close, IsClose);
    DigitCountOptional(p.sep1, IsPhoneSeparator);
    DigitCountOptional(p.sep2, IsPhoneSeparator);
    DigitCountAll(p.area);
    DigitCountAll(p.exchange);
    DigitCountAll(p.line);
    DigitCountAppend(p.sep2, p.line);
    DigitCountAppend(p.exchange, p.sep2 + p.line);
    DigitCountAppend(p.sep1, FromExchange(p));
    DigitCountAppend(p.close, p.sep1 + FromExchange(p));
    DigitCountAppend(p.area, p.close + (p.sep1 + FromExchange(p)));
    DigitCountAppend(p.open, FromArea(p));
    DigitCountAppend(p.plus, p.open + FromArea(p));
  }

  /** Every accepted phone has 10 to 12 digits. */
  lemma PhoneRuleDigits(s: string)
    requires PhoneRule(s)
    ensures 10 <= DigitCount(s) <= 12
  {
    PhoneDigitsAndLength(ParsePhone(s).value);
  }

  /** "+(123) 456-123456" is of the pattern but 17 characters long. */
  lemma LongestPhonesRefused()
    ensures var p := PhoneParts("+", "(", "123", ")", " ", "456", "-", "123456");
      PhonePattern(RenderPhone(p)) && !PhoneRule(RenderPhone(p))
  {
    var p := PhoneParts("+", "(", "123", ")", " ", "456", "-", "123456");
    assert WellFormedPhone(p);
    assert |RenderPhone(p)| == 17;
  }

  // ---------------------------------------------------------------------
  // address, city, country, neighborhood

  /** `[a-zA-Z0-9\s.,#-]` */
  predicate IsAddressChar(c: char)
  {
    IsAsciiLetter(c) || IsDigit(c) || IsWhitespace(c) || c in ".,#-"
  }

  /** `[a-zA-ZÀ-ÿ\s]`: the range À-ÿ is U+00C0 to U+00FF. */
  predicate IsPlaceChar(c: char)
  {
    IsAsciiLetter(c) || ('\U{C0}' <= c <= '\U{FF}') || IsWhitespace(c)
  }

  predicate AddressRule(s: string)
  {
    NonEmpty(s) && MinLength(s, 5) && MaxLength(s, 100) && OneOrMore(s, IsAddressChar)
  }

  predicate PlaceRule(s: string)
  {
    NonEmpty(s) && MinLength(s, 2) && MaxLength(s, 50) && OneOrMore(s, IsPlaceChar)
  }

  /** An address has 5 to 100 characters of its class; a city, country or
      neighborhood 2 to 50 of its class. */
  lemma AddressAndPlaceBounds(s: string)
    ensures AddressRule(s) <==> 5 <= |s| <= 100 && forall i :: 0 <= i < |s| ==> IsAddressChar(s[i])
    ensures PlaceRule(s) <==> 2 <= |s| <= 50 && forall i :: 0 <= i < |s| ==> IsPlaceChar(s[i])
    ensures AddressRule("Calle 10 #5-20") && !AddressRule("Calle_10")
  {
    assert !IsAddressChar("Calle_10"[5]);
  }

  /** The range À-ÿ takes in the signs × (U+00D7) and ÷ (U+00F7) as letters;
      a city name made of spaces only passes too. */
  lemma PlaceRangeAdmitsSigns()
    ensures PlaceRule("\U{D7}\U{F7}")
    ensures PlaceRule("  ")
    ensures PlaceRule("Bogot\U{E1}") && !PlaceRule("Bogota1")
  {
    assert !IsPlaceChar("Bogota1"[6]);
  }

  // ---------------------------------------------------------------------
  // the two object schemas

  predicate CustomerSchema(body: RequestBody, isUuid: string -> bool)
  {
    && RequiredField(body, "userId", j => StringWhere(j, isUuid))
    && RequiredField(body, "phone", j => StringWhere(j, PhoneRule))
    && RequiredField(body, "address", j => StringWhere(j, AddressRule))
    && RequiredField(body, "city", j => StringWhere(j, PlaceRule))
    && RequiredField(body, "country", j => StringWhere(j, PlaceRule))
    && RequiredField(body, "neighborhood", j => StringWhere(j, PlaceRule))
  }

  predicate CustomerUpdateSchema(body: RequestBody, isUuid: string -> bool)
  {
    && OptionalField(body, "userId", j => StringWhere(j, isUuid))
    && OptionalField(body, "phone", j => StringWhere(j, PhoneRule))
    && OptionalField(body, "address", j => StringWhere(j, AddressRule))
    && OptionalField(body, "city", j => StringWhere(j, PlaceRule))
    && OptionalField(body, "country", j => StringWhere(j, PlaceRule))
    && OptionalField(body, "neighborhood", j => StringWhere(j, PlaceRule))
  }

  /** The update schema accepts every create body, and the empty one. */
  lemma SchemasRelated(body: RequestBody, isUuid: string -> bool)
    ensures CustomerSchema(body, isUuid) ==> CustomerUpdateSchema(body, isUuid)
    ensures CustomerUpdateSchema(map[], isUuid) && !CustomerSchema(map[], isUuid)
  {
  }
}
