// backend/src/schemas/userSchema.ts
module UserSchema {
  import opened Common
  import opened Valibot

  // ---------------------------------------------------------------------
  // name and lastname: minLength(3) and `^[letters\s]+$`

  /** The twelve code points the file holds after `a-zA-Z` in the name
      class: Hangul syllables, where the accented letters áéíóúÁÉÍÓÚñÑ were
      meant (their UTF-8 bytes read back in a Korean code page). */
  const NameExtrasAsWritten: string :=
    "\U{CC3C}\U{CC55}\U{CC60}\U{CC98}\U{CCAC}\U{D681}\U{D68B}\U{D692}\U{D699}\U{D6A3}\U{CC70}\U{D697}"

  /** áéíóúÁÉÍÓÚñÑ */
  const NameExtras: string :=
    "\U{E1}\U{E9}\U{ED}\U{F3}\U{FA}\U{C1}\U{C9}\U{CD}\U{D3}\U{DA}\U{F1}\U{D1}"

  predicate NameCharAsWritten(c: char)
  {
    IsAsciiLetter(c) || c in NameExtrasAsWritten || IsWhitespace(c)
  }

  predicate NameChar(c: char)
  {
    IsAsciiLetter(c) || c in NameExtras || IsWhitespace(c)
  }

  /** The name and lastname rule as the file has it; the schemas below use
      this one. */
  predicate PersonNameAsWritten(s: string)
  {
    MinLength(s, 3) && OneOrMore(s, NameCharAsWritten)
  }

  /** The name and lastname rule with the accented letters restored; the
      corrected schemas below use this one. */
  predicate PersonName(s: string)
  {
    MinLength(s, 3) && OneOrMore(s, NameChar)
  }

  /** As written, an accented Spanish name is refused and a run of Hangul
      syllables is taken for a name. */
  lemma AccentedNameRejectedAsWritten()
    ensures !PersonNameAsWritten("Jos\U{E9}")
    ensures PersonNameAsWritten("\U{CC3C}\U{CC55}\U{CC60}")
  {
    assert !NameCharAsWritten("Jos\U{E9}"[3]);
  }

  /** Restored, the accented name is accepted, the Hangul run refused, and
      on text with neither kind of extra letter the two rules agree. */
  lemma AccentedNameAccepted(s: string)
    ensures PersonName("Jos\U{E9}")
    ensures !PersonName("\U{CC3C}\U{CC55}\U{CC60}")
    ensures (forall i :: 0 <= i < |s| ==> s[i] !in NameExtras && s[i] !in NameExtrasAsWritten)
      ==> (PersonName(s) <==> PersonNameAsWritten(s))
  {
    assert !NameChar("\U{CC3C}\U{CC55}\U{CC60}"[0]);
  }

  // ---------------------------------------------------------------------
  // email: email() and `^[a-zA-Z0-9._%+-]+@[a-zA-Z0-9.-]+\.[a-zA-Z]{2,}$`

  predicate IsLocalChar(c: char)
  {
    IsAsciiLetter(c) || IsDigit(c) || c in "._%+-"
  }

  predicate IsDomainChar(c: char)
  {
    IsAsciiLetter(c) || IsDigit(c) || c in ".-"
  }

  /** The three groups of the pattern. */
  datatype EmailParts = EmailParts(local: string, domain: string, tld: string)

  predicate WellFormedEmail(p: EmailParts)
  {
    && OneOrMore(p.local, IsLocalChar)
    && OneOrMore(p.domain, IsDomainChar)
    && |p.tld| >= 2 && AllChars(p.tld, IsAsciiLetter)
  }

  function RenderEmail(p: EmailParts): string
  {
    p.local + ("@" + (p.domain + ("." + p.tld)))
  }

  /** The language of the pattern: the strings that split into its groups. */
  ghost predicate EmailPattern(s: string)
  {
    exists p :: WellFormedEmail(p) && RenderEmail(p) == s
  }

  function IndexOf(s: string, c: char): (r: Option<nat>)
    ensures r.Some? ==> r.value < |s| && s[r.value] == c && forall j :: 0 <= j < r.value ==> s[j] != c
    ensures r.None? ==> forall j :: 0 <= j < |s| ==> s[j] != c
  {
    if |s| == 0 then None
    else if s[0] == c then Some(0)
    else match IndexOf(s[1..], c)
      case None => None
      case Some(k) => Some(k + 1)
  }

  function LastIndexOf(s: string, c: char): (r: Option<nat>)
    ensures r.Some? ==> r.value < |s| && s[r.value] == c && forall j :: r.value < j < |s| ==> s[j] != c
    ensures r.None? ==> forall j :: 0 <= j < |s| ==> s[j] != c
  {
    if |s| == 0 then None
    else if s[|s| - 1] == c then Some(|s| - 1)
    else LastIndexOf(s[..|s| - 1], c)
  }

  /** A string is what comes before position i, the character there, and
      what follows. */
  lemma SplitAt(s: string, i: nat)
    requires i < |s|
    ensures s == s[..i] + ([s[i]] + s[i + 1..])
  {
  }

  /** Matches the pattern: the local part ends at the first '@' (the local
      class has none), the top-level domain starts after the last '.' (the
      letters class has none). */
  function ParseEmail(s: string): (r: Option<EmailParts>)
    ensures r.Some? ==> WellFormedEmail(r.value) && RenderEmail(r.value) == s
  {
    match IndexOf(s, '@')
    case None => None
    case Some(at) =>
      var rest := s[at + 1..];
      match LastIndexOf(rest, '.')
      case None => None
      case Some(dot) =>
        var p := EmailParts(s[..at], rest[..dot], rest[dot + 1..]);
        SplitAt(rest, dot);
        SplitAt(s, at);
        if WellFormedEmail(p) then Some(p) else None
  }

  /** In a string of the pattern the first '@' closes the local part. */
  lemma FirstAtClosesLocal(p: EmailParts)
    requires WellFormedEmail(p)
    ensures IndexOf(RenderEmail(p), '@') == Some(|p.local|)
  {
    var s := RenderEmail(p);
    assert s[|p.local|] == '@';
    forall j | 0 <= j < |p.local| ensures s[j] != '@' {
      assert s[j] == p.local[j] && IsLocalChar(p.local[j]);
    }
  }

  /** After the '@', the last '.' opens the top-level domain. */
  lemma LastDotOpensTld(domain: string, tld: string)
    requires AllChars(tld, IsAsciiLetter)
    ensures LastIndexOf(domain + ("." + tld), '.') == Some(|domain|)
  {
    var rest := domain + ("." + tld);
    assert rest[|domain|] == '.';
    forall j | |domain| < j < |rest| ensures rest[j] != '.' {
      assert rest[j] == tld[j - |domain| - 1];
    }
    var r := LastIndexOf(rest, '.');
    assert r.Some?;
    // the last '.' is not before |domain|, which holds one, nor after it
    assert r.value >= |domain|;
    assert r.value <= |domain|;
  }

  /** One unfolding of the matcher at given split points. */
  lemma ParseEmailAt(s: string, at: nat, dot: nat)
    requires IndexOf(s, '@') == Some(at) && LastIndexOf(s[at + 1..], '.') == Some(dot)
    requires WellFormedEmail(EmailParts(s[..at], s[at + 1..][..dot], s[at + 1..][dot + 1..]))
    ensures ParseEmail(s) == Some(EmailParts(s[..at], s[at + 1..][..dot], s[at + 1..][dot + 1..]))
  {
  }

  /** Every string of the pattern is matched, with its own groups. */
  lemma ParseEmailComplete(p: EmailParts)
    requires WellFormedEmail(p)
    ensures ParseEmail(RenderEmail(p)) == Some(p)
  {
    var s := RenderEmail(p);
    var at := |p.local|;
    var rest := p.domain + ("." + p.tld);
    assert s == p.local + ("@" + rest);
    assert s[..at] == p.local;
    assert s[at + 1..] == rest;
    FirstAtClosesLocal(p);
    LastDotOpensTld(p.domain, p.tld);
    var dot := |p.domain|;
    assert rest[..dot] == p.domain && rest[dot + 1..] == p.tld;
    ParseEmailAt(s, at, dot);
  }

  /** The matcher decides the pattern. */
  lemma ParseEmailDecidesPattern(s: string)
    ensures ParseEmail(s).Some? <==> EmailPattern(s)
  {
    if EmailPattern(s) {
      var p :| WellFormedEmail(p) && RenderEmail(p) == s;
      ParseEmailComplete(p);
    }
  }

  /** `pipe(string(), email(), regex(...))`; valibot's own email() check is
      not part of this model and is a parameter. */
  predicate EmailRule(s: string, isEmail: string -> bool)
  {
    isEmail(s) && ParseEmail(s).Some?
  }

  // ---------------------------------------------------------------------
  // password: minLength(8) and
  // `^(?=.*[a-z])(?=.*[A-Z])(?=.*\d)(?=.*[@$!%*?&])[A-Za-z\d@$!%*?&]{8,}$`

  predicate IsPasswordSpecial(c: char)
  {
    c in "@$!%*?&"
  }

  predicate IsPasswordChar(c: char)
  {
    IsAsciiLetter(c) || IsDigit(c) || IsPasswordSpecial(c)
  }

  /** `(?=.*[class])` at the start of the input: a character of the class
      comes before any line terminator. */
  predicate Lookahead(s: string, cls: char -> bool)
  {
    exists i :: 0 <= i < |s| && cls(s[i]) && forall j :: 0 <= j < i ==> !IsLineTerminator(s[j])
  }

  predicate PasswordPattern(s: string)
  {
    && Lookahead(s, IsLower)
    && Lookahead(s, IsUpper)
    && Lookahead(s, IsDigit)
    && Lookahead(s, IsPasswordSpecial)
    && |s| >= 8 && AllChars(s, IsPasswordChar)
  }

  predicate PasswordRule(s: string)
  {
    MinLength(s, 8) && PasswordPattern(s)
  }

  predicate Contains(s: string, cls: char -> bool)
  {
    exists i :: 0 <= i < |s| && cls(s[i])
  }

  /** The rule in plain words: at least eight characters, all letters, digits
      or one of @$!%*?&, with at least one of each of the four kinds. */
  lemma PasswordRuleCharacterised(s: string)
    ensures PasswordRule(s) <==>
      && |s| >= 8 && AllChars(s, IsPasswordChar)
      && Contains(s, IsLower) && Contains(s, IsUpper) && Contains(s, IsDigit) && Contains(s, IsPasswordSpecial)
  {
    if AllChars(s, IsPasswordChar) {
      assert forall j :: 0 <= j < |s| ==> !IsLineTerminator(s[j]) by {
        forall j | 0 <= j < |s| ensures !IsLineTerminator(s[j]) {
          assert IsPasswordChar(s[j]);
        }
      }
    }
  }

  /** `^(Customer|Admin)$` */
  predicate RoleRule(s: string)
  {
    s == "Customer" || s == "Admin"
  }

  // ---------------------------------------------------------------------
  // the two object schemas

  /** userSchema, over a given rule for name and lastname. */
  predicate UserSchemaWith(body: RequestBody, isEmail: string -> bool, nameRule: string -> bool)
  {
    && RequiredField(body, "name", j => StringWhere(j, nameRule))
    && RequiredField(body, "lastname", j => StringWhere(j, nameRule))
    && RequiredField(body, "email", j => StringWhere(j, s => EmailRule(s, isEmail)))
    && RequiredField(body, "password", j => StringWhere(j, PasswordRule))
    && RequiredField(body, "role_user", j => StringWhere(j, RoleRule))
    && RequiredField(body, "is_active", IsBoolean)
    && RequiredField(body, "last_login", IsDate)
  }

  /** userUpdateSchema, over a given rule for name and lastname. */
  predicate UserUpdateSchemaWith(body: RequestBody, isEmail: string -> bool, nameRule: string -> bool)
  {
    && OptionalField(body, "name", j => StringWhere(j, nameRule))
    && OptionalField(body, "lastname", j => StringWhere(j, nameRule))
    && OptionalField(body, "email", j => StringWhere(j, s => EmailRule(s, isEmail)))
    && OptionalField(body, "password", j => StringWhere(j, PasswordRule))
    && OptionalField(body, "role_user", j => StringWhere(j, RoleRule))
    && OptionalField(body, "is_active", IsBoolean)
    && OptionalField(body, "last_login", IsDate)
  }

  /** userSchema as the file has it. */
  predicate UserSchema(body: RequestBody, isEmail: string -> bool)
  {
    UserSchemaWith(body, isEmail, PersonNameAsWritten)
  }

  /** userUpdateSchema as the file has it. */
  predicate UserUpdateSchema(body: RequestBody, isEmail: string -> bool)
  {
    UserUpdateSchemaWith(body, isEmail, PersonNameAsWritten)
  }

  /** userSchema with the accented letters restored. */
  predicate CorrectedUserSchema(body: RequestBody, isEmail: string -> bool)
  {
    UserSchemaWith(body, isEmail, PersonName)
  }

  /** userUpdateSchema with the accented letters restored. */
  predicate CorrectedUserUpdateSchema(body: RequestBody, isEmail: string -> bool)
  {
    UserUpdateSchemaWith(body, isEmail, PersonName)
  }

  /** An update that only renames a user to "José" is refused as written and
      accepted once the letters are restored; a Hangul name goes the other
      way. */
  lemma AccentedNameInUpdateSchema(isEmail: string -> bool)
    ensures !UserUpdateSchema(map["name" := JStr("Jos\U{E9}")], isEmail)
    ensures CorrectedUserUpdateSchema(map["name" := JStr("Jos\U{E9}")], isEmail)
    ensures UserUpdateSchema(map["lastname" := JStr("\U{CC3C}\U{CC55}\U{CC60}")], isEmail)
    ensures !CorrectedUserUpdateSchema(map["lastname" := JStr("\U{CC3C}\U{CC55}\U{CC60}")], isEmail)
  {
    AccentedNameRejectedAsWritten();
    AccentedNameAccepted("");
  }

  /** `last_login: date()` cannot be met by a JSON body, so the create schema
      refuses every one; the update schema accepts a body only without it. */
  lemma LastLoginBlocksJsonBodies(body: RequestBody, isEmail: string -> bool)
    ensures !UserSchema(body, isEmail) && !CorrectedUserSchema(body, isEmail)
    ensures UserUpdateSchema(body, isEmail) ==> "last_login" !in body
    ensures UserUpdateSchema(map[], isEmail)
  {
  }

  /** Only the two role names pass, written exactly. */
  lemma RoleRuleCharacterised(s: string)
    ensures RoleRule(s) <==> s in {"Customer", "Admin"}
    ensures !RoleRule("admin") && !RoleRule("Customer ")
  {
  }
}
