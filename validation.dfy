/**
 * The input validators used when registering a user: an email pattern, a
 * username rule, password length checks that collect error messages,
 * white-space trimming, and the registration check that combines them.
 */
module Validation {

  /**
   * A JavaScript value as the validators receive it from a request body. Any
   * value other than `undefined`, `null` or a string is kept as the text
   * `String(v)` gives for it, which is all a regular-expression test sees.
   */
  datatype JsValue =
    | Undefined
    | Null
    | Str(s: string)
    | Other(text: string)

  /** `String(v)`: the coercion `RegExp.prototype.test` applies to its argument. */
  function ToText(v: JsValue): string {
    match v
    case Undefined => "undefined"
    case Null => "null"
    case Str(s) => s
    case Other(t) => t
  }

  /** False only for `undefined`, `null` and the empty string; used only together with `Str?`. */
  predicate Truthy(v: JsValue) {
    !(v.Undefined? || v.Null? || v == Str(""))
  }

  /** A non-empty string: what `!x || typeof x !== "string"` rejects is everything else. */
  predicate IsNonEmptyString(v: JsValue)
  {
    Truthy(v) && v.Str?
  }

  /**
   * The white space and line terminators of JavaScript, the characters both
   * `\s` and `String.prototype.trim` recognise.
   */
  predicate IsWhitespace(c: char)
    ensures c as int < 0x80 ==> (IsWhitespace(c) <==> c == ' ' || '\t' <= c <= '\r')
    ensures IsWhitespace(c) ==> !IsUsernameChar(c) && c != '@' && c != '.'
  {
    || c == '\t' || c == '\n' || c == '\U{000B}' || c == '\U{000C}' || c == '\r' || c == ' '
    || c == '\U{00A0}' || c == '\U{1680}' || ('\U{2000}' <= c <= '\U{200A}')
    || c == '\U{2028}' || c == '\U{2029}' || c == '\U{202F}' || c == '\U{205F}'
    || c == '\U{3000}' || c == '\U{FEFF}'
  }

  predicate AllWhitespace(s: string) {
    forall i :: 0 <= i < |s| ==> IsWhitespace(s[i])
  }

  // ---------------------------------------------------------------- lengths

  /**
   * JavaScript's `s.length`: the number of UTF-16 code units, where a
   * character beyond the Basic Multilingual Plane takes two.
   */
  function Utf16Length(s: string): (n: nat)
    ensures |s| <= n <= 2 * |s|
    ensures n == |s| <==> forall i :: 0 <= i < |s| ==> s[i] as int < 0x10000
  {
    if s == [] then 0
    else (if s[0] as int < 0x10000 then 1 else 2) + Utf16Length(s[1..])
  }

  // ------------------------------------------------------------------ email

  /** A character of the class `[^\s@]`. */
  predicate IsPlain(c: char) {
    !IsWhitespace(c) && c != '@'
  }

  predicate AllPlain(s: string) {
    forall i :: 0 <= i < |s| ==> IsPlain(s[i])
  }

  /**
   * `s` matches `^[^\s@]+@[^\s@]+\.[^\s@]+$`: a run of plain characters, `@`,
   * a run of plain characters, `.`, and a run of plain characters, each run
   * non-empty.
   */
  predicate MatchesEmailPattern(s: string)
    ensures MatchesEmailPattern(s) ==> 5 <= |s| && '@' in s && '.' in s
  {
    exists at, dot | 0 < at && at + 1 < dot && dot + 1 < |s| ::
      && s[at] == '@' && s[dot] == '.'
      && AllPlain(s[..at]) && AllPlain(s[at + 1..dot]) && AllPlain(s[dot + 1..])
  }

  /** `isValidEmail`: the pattern applied to the text of the value. */
  predicate IsValidEmail(v: JsValue)
    ensures IsValidEmail(v) <==> EmailRestated(ToText(v))
    ensures v.Undefined? || v.Null? ==> !IsValidEmail(v)
  {
    EmailPatternRestated(ToText(v));
    MatchesEmailPattern(ToText(v))
  }

  /**
   * The email rule in other words: no white space, exactly one `@`, something
   * before it, and after it a `.` that is neither first nor last.
   */
  predicate EmailRestated(s: string) {
    && (forall i :: 0 <= i < |s| ==> !IsWhitespace(s[i]))
    && exists at :: 0 < at < |s| && SoleAtWithDot(s, at)
  }

  /** `s[at]` is the only `@` of `s`, and a `.` follows it with at least one character on each side. */
  predicate SoleAtWithDot(s: string, at: int)
    requires 0 <= at < |s|
  {
    && s[at] == '@'
    && (forall i :: 0 <= i < |s| && i != at ==> s[i] != '@')
    && (exists dot :: at + 1 < dot < |s| - 1 && s[dot] == '.')
  }

  /** The pattern and its restatement accept the same texts. */
  lemma EmailPatternRestated(s: string)
    ensures MatchesEmailPattern(s) <==> EmailRestated(s)
  {
    if MatchesEmailPattern(s) {
      PatternImpliesRestated(s);
    }
    if EmailRestated(s) {
      RestatedImpliesPattern(s);
    }
  }

  lemma PatternImpliesRestated(s: string)
    requires MatchesEmailPattern(s)
    ensures EmailRestated(s)
  {
    var at, dot :| 0 < at && at + 1 < dot && dot + 1 < |s|
      && s[at] == '@' && s[dot] == '.'
      && AllPlain(s[..at]) && AllPlain(s[at + 1..dot]) && AllPlain(s[dot + 1..]);
    forall i | 0 <= i < |s| && i != at
      ensures IsPlain(s[i])
    {
      if i < at {
        assert s[i] == s[..at][i];
      } else if i < dot {
        assert s[i] == s[at + 1..dot][i - at - 1];
      } else if i > dot {
        assert s[i] == s[dot + 1..][i - dot - 1];
      }
    }
    assert SoleAtWithDot(s, at);
  }

  lemma RestatedImpliesPattern(s: string)
    requires EmailRestated(s)
    ensures MatchesEmailPattern(s)
  {
    var at :| 0 < at < |s| && SoleAtWithDot(s, at);
    var dot :| at + 1 < dot < |s| - 1 && s[dot] == '.';
    forall i | 0 <= i < |s| && i != at ensures IsPlain(s[i]) {
    }
    var local, host, top := s[..at], s[at + 1..dot], s[dot + 1..];
    forall k | 0 <= k < |local| ensures IsPlain(local[k]) {
      assert local[k] == s[k];
    }
    forall k | 0 <= k < |host| ensures IsPlain(host[k]) {
      assert host[k] == s[at + 1 + k];
    }
    forall k | 0 <= k < |top| ensures IsPlain(top[k]) {
      assert top[k] == s[dot + 1 + k];
    }
  }

  // --------------------------------------------------------------- username

  /** A character of the class `[a-zA-Z0-9_-]`. */
  predicate IsUsernameChar(c: char) {
    'a' <= c <= 'z' || 'A' <= c <= 'Z' || '0' <= c <= '9' || c == '_' || c == '-'
  }

  /**
   * `isValidUsername`: a non-empty string of 3 to 30 UTF-16 code units that
   * matches `^[a-zA-Z0-9_-]+$`. Since the allowed characters take one code
   * unit each, the bounds hold of the number of characters.
   */
  function IsValidUsername(v: JsValue): (ok: bool)
    ensures ok <==> v.Str? && 3 <= |v.s| <= 30 && forall i :: 0 <= i < |v.s| ==> IsUsernameChar(v.s[i])
  {
    if !Truthy(v) || !v.Str? then false
    else if Utf16Length(v.s) < 3 || Utf16Length(v.s) > 30 then false
    else |v.s| > 0 && forall i | 0 <= i < |v.s| :: IsUsernameChar(v.s[i])
  }

  // --------------------------------------------------------------- password

  const PasswordRequired := "Password is required"
  const PasswordTooShort := "Password must be at least 6 characters long"
  const PasswordTooLong := "Password must be less than 128 characters"

  /** What a validator returns: a verdict and the messages explaining it. */
  datatype Report = Report(isValid: bool, errors: seq<string>)

  /**
   * `validatePassword`: anything but a non-empty string is reported missing;
   * otherwise the length in UTF-16 code units must lie between 6 and 128.
   */
  function ValidatePassword(v: JsValue): (r: Report)
    ensures r.isValid <==> r.errors == []
    ensures |r.errors| <= 1
    ensures !IsNonEmptyString(v) ==> r == Report(false, [PasswordRequired])
    ensures IsNonEmptyString(v) ==>
      && (r.isValid <==> 6 <= Utf16Length(v.s) <= 128)
      && (Utf16Length(v.s) < 6 ==> r.errors == [PasswordTooShort])
      && (Utf16Length(v.s) > 128 ==> r.errors == [PasswordTooLong])
  {
    if !Truthy(v) || !v.Str? then
      Report(false, [PasswordRequired])
    else
      var errors :=
        (if Utf16Length(v.s) < 6 then [PasswordTooShort] else [])
        + (if Utf16Length(v.s) > 128 then [PasswordTooLong] else []);
      Report(|errors| == 0, errors)
  }

  // --------------------------------------------------------------- trimming

  /** The number of white-space characters `s` starts with. */
  function LeadingWhitespace(s: string): (n: nat)
    ensures n <= |s|
    ensures AllWhitespace(s[..n])
    ensures n < |s| ==> !IsWhitespace(s[n])
  {
    if s != [] && IsWhitespace(s[0]) then
      var n := 1 + LeadingWhitespace(s[1..]);
      assert s[..n] == [s[0]] + s[1..][..n - 1];
      n
    else 0
  }

  /** The number of white-space characters `s` ends with. */
  function TrailingWhitespace(s: string): (n: nat)
    ensures n <= |s|
    ensures AllWhitespace(s[|s| - n..])
    ensures n < |s| ==> !IsWhitespace(s[|s| - n - 1])
  {
    if s != [] && IsWhitespace(s[|s| - 1]) then
      var n := 1 + TrailingWhitespace(s[..|s| - 1]);
      assert s[|s| - n..] == s[..|s| - 1][|s| - n..] + [s[|s| - 1]];
      n
    else 0
  }

  /**
   * `t` is what is left of `s` after dropping `i` leading and some trailing
   * characters, all of them white space, and `t` neither starts nor ends with
   * white space.
   */
  predicate TrimmedAt(s: string, t: string, i: int) {
    && 0 <= i <= |s| - |t|
    && t == s[i..i + |t|]
    && AllWhitespace(s[..i])
    && AllWhitespace(s[i + |t|..])
    && (t == [] || (!IsWhitespace(t[0]) && !IsWhitespace(t[|t| - 1])))
  }

  /**
   * `String.prototype.trim`: the part of `s` left after removing its leading
   * and trailing white space.
   */
  function Trim(s: string): (t: string)
    ensures TrimmedAt(s, t, LeadingWhitespace(s))
  {
    var i := LeadingWhitespace(s);
    var rest := s[i..];
    var m := TrailingWhitespace(rest);
    var j := |s| - m;
    assert s[j..] == rest[|rest| - m..];
    assert j > i ==> s[j - 1] == rest[|rest| - m - 1];
    s[i..j]
  }

  /** The description `TrimmedAt` admits exactly one result: the one `Trim` gives. */
  lemma TrimUnique(s: string, t: string, i: int)
    requires TrimmedAt(s, t, i)
    ensures t == Trim(s)
  {
    var u, n := Trim(s), LeadingWhitespace(s);
    WhitespaceAround(s, t, i);
    WhitespaceAround(s, u, n);
    assert t != [] ==> s[i] == t[0] && s[i + |t| - 1] == t[|t| - 1];
    assert u != [] ==> s[n] == u[0] && s[n + |u| - 1] == u[|u| - 1];
  }

  /** What `TrimmedAt` says, stated index by index over `s`. */
  lemma WhitespaceAround(s: string, t: string, i: int)
    requires TrimmedAt(s, t, i)
    ensures forall k :: 0 <= k < i ==> IsWhitespace(s[k])
    ensures forall k :: i + |t| <= k < |s| ==> IsWhitespace(s[k])
    ensures forall k :: 0 <= k < |t| ==> s[i + k] == t[k]
  {
    forall k | 0 <= k < i ensures IsWhitespace(s[k]) {
      assert s[k] == s[..i][k];
    }
    forall k | i + |t| <= k < |s| ensures IsWhitespace(s[k]) {
      assert s[k] == s[i + |t|..][k - i - |t|];
    }
  }

  /** Trimming twice is trimming once. */
  lemma TrimIdempotent(s: string)
    ensures Trim(Trim(s)) == Trim(s)
  {
    var t := Trim(s);
    assert LeadingWhitespace(t) == 0;
    assert TrailingWhitespace(t) == 0;
  }

  /** `sanitizeInput`: strings are trimmed, anything else is returned as it is. */
  function SanitizeInput(v: JsValue): (r: JsValue)
    ensures !v.Str? ==> r == v
    ensures v.Str? ==> r.Str? && r.s == Trim(v.s)
  {
    if !v.Str? then v else Str(Trim(v.s))
  }

  /** Sanitizing twice is sanitizing once. */
  lemma SanitizeIdempotent(v: JsValue)
    ensures SanitizeInput(SanitizeInput(v)) == SanitizeInput(v)
  {
    if v.Str? {
      TrimIdempotent(v.s);
    }
  }

  // ----------------------------------------------------------- registration

  const UsernameMessage :=
    "Username must be 3-30 characters long and contain only letters, numbers, underscores, and hyphens"
  const EmailMessage := "Please provide a valid email address"

  /** The fields `validateRegistrationData` reads from the request body; a missing one is `Undefined`. */
  datatype RegistrationData = RegistrationData(username: JsValue, email: JsValue, password: JsValue)

  /**
   * `validateRegistrationData`: valid exactly when the three validators
   * accept; the username message comes first, then the email message, then
   * the password's own messages.
   */
  function ValidateRegistrationData(d: RegistrationData): (r: Report)
    ensures r.isValid <==> r.errors == []
    ensures r.isValid <==>
      IsValidUsername(d.username) && IsValidEmail(d.email) && ValidatePassword(d.password).isValid
    ensures |r.errors| <= 3
    ensures UsernameMessage in r.errors <==> !IsValidUsername(d.username)
    ensures EmailMessage in r.errors <==> !IsValidEmail(d.email)
    ensures !IsValidUsername(d.username) ==> r.errors[0] == UsernameMessage
    ensures var p := ValidatePassword(d.password).errors;
      |p| <= |r.errors| && r.errors[|r.errors| - |p|..] == p
    ensures r.errors ==
      (if !IsValidUsername(d.username) then [UsernameMessage] else [])
      + (if !IsValidEmail(d.email) then [EmailMessage] else [])
      + ValidatePassword(d.password).errors
  {
    var errors :=
      (if !IsValidUsername(d.username) then [UsernameMessage] else [])
      + (if !IsValidEmail(d.email) then [EmailMessage] else []);
    var password := ValidatePassword(d.password);
    var errors := if !password.isValid then errors + password.errors else errors;
    Report(|errors| == 0, errors)
  }
}
