/**
 * The waitlist endpoint: it accepts only POST, requires an email, answers 200 for an
 * email already on the list and 201 for a new one, which the store normalises
 * (trimmed, lower-cased) and validates against the email pattern before adding it.
 * The document collection is modelled as the set of stored emails.
 */
module WaitlistApi {
  import opened JsValues

  // ---------------------------------------------------------------------------
  // Normalisation: the schema's `trim` and `lowercase`

  /** The characters JavaScript's `trim` removes: white space and line terminators. */
  predicate IsJsWhitespace(c: char) {
    c == '\U{0009}' || c == '\U{000A}' || c == '\U{000B}' || c == '\U{000C}' || c == '\U{000D}' ||
    c == ' ' || c == '\U{00A0}' || c == '\U{1680}' || ('\U{2000}' <= c <= '\U{200A}') ||
    c == '\U{2028}' || c == '\U{2029}' || c == '\U{202F}' || c == '\U{205F}' || c == '\U{3000}' || c == '\U{FEFF}'
  }

  /** Drops the leading white space. */
  function TrimStart(s: string): (r: string)
    ensures |r| <= |s|
    ensures r == [] || !IsJsWhitespace(r[0])
  {
    if s != [] && IsJsWhitespace(s[0]) then TrimStart(s[1..]) else s
  }

  /** Drops the trailing white space. */
  function TrimEnd(s: string): (r: string)
    ensures |r| <= |s|
    ensures r == [] || !IsJsWhitespace(r[|r| - 1])
    ensures s != [] && !IsJsWhitespace(s[0]) ==> r != [] && r[0] == s[0]
  {
    if s != [] && IsJsWhitespace(s[|s| - 1]) then TrimEnd(s[..|s| - 1]) else s
  }

  /** No white space at either end. */
  predicate IsTrimmed(s: string) {
    s == [] || (!IsJsWhitespace(s[0]) && !IsJsWhitespace(s[|s| - 1]))
  }

  /** `r` is the slice of `s` that starts at `a`, with only white space before and after it. */
  predicate SliceBetweenSpaces(s: string, r: string, a: int) {
    && 0 <= a && a + |r| <= |s| && r == s[a..a + |r|]
    && (forall i :: 0 <= i < a ==> IsJsWhitespace(s[i]))
    && (forall i :: a + |r| <= i < |s| ==> IsJsWhitespace(s[i]))
  }

  /** `String.prototype.trim`. */
  function Trim(s: string): (r: string)
    ensures IsTrimmed(r)
  {
    TrimEnd(TrimStart(s))
  }

  /** Only white space is dropped from the front, and the rest is kept as it is. */
  lemma {:induction false} TrimStartDropsSpaces(s: string)
    ensures var r := TrimStart(s);
            r == s[|s| - |r|..] && forall i :: 0 <= i < |s| - |r| ==> IsJsWhitespace(s[i])
    decreases |s|
  {
    if s != [] && IsJsWhitespace(s[0]) {
      TrimStartDropsSpaces(s[1..]);
    }
  }

  /** Only white space is dropped from the back, and the rest is kept as it is. */
  lemma {:induction false} TrimEndDropsSpaces(s: string)
    ensures var r := TrimEnd(s);
            r == s[..|r|] && forall i :: |r| <= i < |s| ==> IsJsWhitespace(s[i])
    decreases |s|
  {
    if s != [] && IsJsWhitespace(s[|s| - 1]) {
      TrimEndDropsSpaces(s[..|s| - 1]);
    }
  }

  /** A prefix, with white space after it, of a suffix with white space before it. */
  lemma PrefixOfSuffix(s: string, t: string, r: string, a: int)
    requires 0 <= a <= |s| && t == s[a..] && |r| <= |t| && r == t[..|r|]
    requires forall i :: 0 <= i < a ==> IsJsWhitespace(s[i])
    requires forall i :: |r| <= i < |t| ==> IsJsWhitespace(t[i])
    ensures SliceBetweenSpaces(s, r, a)
  {
    assert forall i :: a + |r| <= i < |s| ==> s[i] == t[i - a];
  }

  /** Trimming keeps a contiguous slice of the input and drops only white space around it. */
  lemma TrimIsSlice(s: string)
    ensures exists a :: SliceBetweenSpaces(s, Trim(s), a)
  {
    var t := TrimStart(s);
    TrimStartDropsSpaces(s);
    TrimEndDropsSpaces(t);
    PrefixOfSuffix(s, t, TrimEnd(t), |s| - |t|);
    assert Trim(s) == TrimEnd(t);
  }

  /**
   * The lower case of one character, for the ASCII letters and the Kelvin sign U+212A,
   * the one character outside ASCII whose lower case is an ASCII letter ('k').
   */
  function LowerChar(c: char): char {
    if 'A' <= c <= 'Z' then (c as int - 'A' as int + 'a' as int) as char
    else if c == '\U{212A}' then 'k'
    else c
  }

  /** `toLowerCase`, for the characters `LowerChar` maps. */
  function ToLower(s: string): (r: string)
    ensures |r| == |s|
    ensures forall i :: 0 <= i < |s| ==> r[i] == LowerChar(s[i])
  {
    seq(|s|, i requires 0 <= i < |s| => LowerChar(s[i]))
  }

  /** The value the schema stores for an email: trimmed, then lower-cased. */
  function Normalise(s: string): (n: string)
    ensures IsTrimmed(n) && |n| <= |s|
  {
    var t := Trim(s);
    LowerKeepsTrimmed(t);
    ToLower(t)
  }

  lemma {:induction false} TrimmedIsFixed(s: string)
    requires IsTrimmed(s)
    ensures Trim(s) == s
  {
  }

  /** Lower-casing never creates or removes white space, so it keeps a trimmed string trimmed. */
  lemma LowerKeepsTrimmed(s: string)
    requires IsTrimmed(s)
    ensures IsTrimmed(ToLower(s))
  {
    if s != [] {
      assert ToLower(s)[0] == LowerChar(s[0]);
      assert ToLower(s)[|s| - 1] == LowerChar(s[|s| - 1]);
    }
  }

  /** Normalising twice is normalising once, so a stored email is its own normal form. */
  lemma NormaliseIdempotent(s: string)
    ensures Normalise(Normalise(s)) == Normalise(s)
  {
    var t := Trim(s);
    LowerKeepsTrimmed(t);
    TrimmedIsFixed(ToLower(t));
    assert ToLower(ToLower(t)) == ToLower(t);
  }

  // ---------------------------------------------------------------------------
  // The email pattern

  /** `\w`: an ASCII letter, digit or underscore. */
  predicate IsWordChar(c: char) {
    ('a' <= c <= 'z') || ('A' <= c <= 'Z') || ('0' <= c <= '9') || c == '_'
  }

  /** `[\.-]`. */
  predicate IsSeparator(c: char) {
    c == '.' || c == '-'
  }

  /**
   * `\w+([\.-]?\w+)*`: runs of word characters joined by single dots or hyphens, so it
   * starts and ends with a word character and never has two separators in a row.
   */
  predicate IsDottedWords(s: string) {
    && |s| >= 1
    && IsWordChar(s[0]) && IsWordChar(s[|s| - 1])
    && (forall i :: 0 <= i < |s| ==> IsWordChar(s[i]) || IsSeparator(s[i]))
    && (forall i :: 0 <= i < |s| - 1 ==> IsWordChar(s[i]) || IsWordChar(s[i + 1]))
  }

  /**
   * `\w+([\.-]?\w+)*(\.\w{2,3})+` for the domain: the pattern can always take the last
   * `.xx` or `.xxx` group alone, so it suffices that a dot is followed by two or three
   * word characters that end the string, with dotted words before the dot.
   */
  predicate IsDomain(d: string) {
    exists j :: 0 <= j < |d| && d[j] == '.' && 2 <= |d| - j - 1 <= 3 && IsDottedWords(d[..j])
                && (forall i :: j < i < |d| ==> IsWordChar(d[i]))
  }

  /** `/^\w+([\.-]?\w+)*@\w+([\.-]?\w+)*(\.\w{2,3})+$/.test(s)`. */
  predicate MatchesEmailPattern(s: string)
    ensures MatchesEmailPattern(s) ==> |s| >= 6 && IsWordChar(s[0]) && IsWordChar(s[|s| - 1])
  {
    exists k :: 0 <= k < |s| && s[k] == '@' && IsDottedWords(s[..k]) && IsDomain(s[k + 1..])
  }

  /** A pattern character: a word character, a separator or the '@'. */
  predicate IsPatternChar(c: char) {
    IsWordChar(c) || IsSeparator(c) || c == '@'
  }

  lemma DottedWordsHaveNoAt(s: string)
    requires IsDottedWords(s)
    ensures forall i :: 0 <= i < |s| ==> IsPatternChar(s[i]) && s[i] != '@'
  {
  }

  lemma DomainHasNoAt(d: string)
    requires IsDomain(d)
    ensures forall i :: 0 <= i < |d| ==> IsPatternChar(d[i]) && d[i] != '@'
  {
    var j :| 0 <= j < |d| && d[j] == '.' && 2 <= |d| - j - 1 <= 3 && IsDottedWords(d[..j])
             && (forall i :: j < i < |d| ==> IsWordChar(d[i]));
    DottedWordsHaveNoAt(d[..j]);
    forall i | 0 <= i < j
      ensures IsPatternChar(d[i]) && d[i] != '@'
    {
      assert d[i] == d[..j][i];
    }
  }

  /** The characters of the slice `s[lo..hi]` are the characters of `s` from `lo` to `hi`. */
  lemma SliceHasNoAt(s: string, lo: int, hi: int)
    requires 0 <= lo <= hi <= |s|
    requires forall i :: 0 <= i < hi - lo ==> IsPatternChar(s[lo..hi][i]) && s[lo..hi][i] != '@'
    ensures forall i :: lo <= i < hi ==> IsPatternChar(s[i]) && s[i] != '@'
  {
    forall i | lo <= i < hi
      ensures IsPatternChar(s[i]) && s[i] != '@'
    {
      assert s[i] == s[lo..hi][i - lo];
    }
  }

  /** Around its '@', an accepted email holds only pattern characters other than '@'. */
  lemma EmailPartsHaveNoAt(s: string, k: int)
    requires 0 <= k < |s| && IsDottedWords(s[..k]) && IsDomain(s[k + 1..])
    ensures forall i :: 0 <= i < |s| && i != k ==> IsPatternChar(s[i]) && s[i] != '@'
  {
    assert s[..k] == s[0..k];
    assert s[k + 1..] == s[k + 1..|s|];
    DottedWordsHaveNoAt(s[0..k]);
    DomainHasNoAt(s[k + 1..|s|]);
    SliceHasNoAt(s, 0, k);
    SliceHasNoAt(s, k + 1, |s|);
  }

  /** An email the pattern accepts has exactly one '@', and only word characters, dots and hyphens besides. */
  lemma PatternShape(s: string)
    requires MatchesEmailPattern(s)
    ensures exists k :: 0 <= k < |s| && s[k] == '@' && forall i :: 0 <= i < |s| && i != k ==> s[i] != '@'
    ensures forall i :: 0 <= i < |s| ==> IsPatternChar(s[i]) && !IsJsWhitespace(s[i])
  {
    var k :| 0 <= k < |s| && s[k] == '@' && IsDottedWords(s[..k]) && IsDomain(s[k + 1..]);
    EmailPartsHaveNoAt(s, k);
    forall i | 0 <= i < |s|
      ensures IsPatternChar(s[i]) && !IsJsWhitespace(s[i])
    {
      PatternCharIsNotSpace(s[i]);
    }
  }

  lemma PatternCharIsNotSpace(c: char)
    requires IsPatternChar(c)
    ensures !IsJsWhitespace(c)
  {
  }

  /** An address the pattern accepts. */
  lemma PatternAcceptsExample()
    ensures MatchesEmailPattern("a@b.in")
  {
    var s := "a@b.in";
    assert s[..1] == "a" && s[2..] == "b.in";
    assert "b.in"[..1] == "b";
    assert IsDomain("b.in");
  }

  /** The final group needs two or three characters, and the domain needs a dot. */
  lemma PatternRejectsExamples()
    ensures !MatchesEmailPattern("a@b.c")
    ensures !MatchesEmailPattern("a@b")
  {
  }

  // The pattern read as the regular expression's own grammar, and proved to agree with
  // the characterisation above.

  /** `\w+([\.-]?\w+)*` as a grammar: a word character, then more of the run, or a separator and a new run. */
  predicate RegexRun(s: string)
    decreases |s|
  {
    && |s| >= 1 && IsWordChar(s[0])
    && (|s| == 1 || RegexRun(s[1..]) || (IsSeparator(s[1]) && RegexRun(s[2..])))
  }

  /** `(\.\w{2,3})+`: one or more groups of a dot and two or three word characters. */
  predicate RegexTldGroups(t: string)
    decreases |t|
  {
    && |t| >= 3 && t[0] == '.' && IsWordChar(t[1]) && IsWordChar(t[2])
    && (|t| == 3 || RegexTldGroups(t[3..]) || (IsWordChar(t[3]) && (|t| == 4 || RegexTldGroups(t[4..]))))
  }

  /** The domain as the regular expression splits it: a run, then the top-level groups. */
  predicate RegexDomain(d: string) {
    exists x :: 1 <= x < |d| && RegexRun(d[..x]) && RegexTldGroups(d[x..])
  }

  /** The whole expression, anchored at both ends. */
  predicate RegexEmail(s: string) {
    exists k :: 0 <= k < |s| && s[k] == '@' && RegexRun(s[..k]) && RegexDomain(s[k + 1..])
  }

  /** The run grammar and the dotted-words characterisation accept the same strings. */
  lemma {:induction false} RunIsDottedWords(s: string)
    ensures RegexRun(s) <==> IsDottedWords(s)
    decreases |s|
  {
    if |s| <= 1 {
      return;
    }
    var t := s[1..];
    assert forall i :: 1 <= i < |s| ==> s[i] == t[i - 1];
    RunIsDottedWords(t);
    if RegexRun(s) {
      if RegexRun(t) {
        assert IsDottedWords(t);
        assert IsDottedWords(s);
      } else {
        var u := s[2..];
        assert IsSeparator(s[1]) && RegexRun(u);
        RunIsDottedWords(u);
        assert forall i :: 2 <= i < |s| ==> s[i] == u[i - 2];
        assert IsDottedWords(s);
      }
    }
    if IsDottedWords(s) {
      if IsWordChar(s[1]) {
        assert IsDottedWords(t);
      } else {
        assert IsSeparator(s[1]);
        assert |s| >= 3;
        var u := s[2..];
        assert forall i :: 2 <= i < |s| ==> s[i] == u[i - 2];
        assert IsDottedWords(u);
        RunIsDottedWords(u);
      }
    }
  }

  /** Dotted words followed by a dot and word characters are still dotted words. */
  lemma DottedAppendGroup(x: string, g: string)
    requires IsDottedWords(x)
    requires |g| >= 2 && g[0] == '.' && forall i :: 1 <= i < |g| ==> IsWordChar(g[i])
    ensures IsDottedWords(x + g)
  {
    var d := x + g;
    assert forall i :: 0 <= i < |x| ==> d[i] == x[i];
    assert forall i :: |x| <= i < |d| ==> d[i] == g[i - |x|];
  }

  /** Dotted words followed by one last group of a dot and two or three word characters form a domain. */
  lemma LastGroupEndsDomain(x: string, t: string)
    requires IsDottedWords(x)
    requires 3 <= |t| <= 4 && t[0] == '.' && forall i :: 1 <= i < |t| ==> IsWordChar(t[i])
    ensures IsDomain(x + t)
  {
    var d := x + t;
    var j := |x|;
    assert d[..j] == x;
    assert forall i :: j < i < |d| ==> d[i] == t[i - j];
    assert d[j] == '.' && 2 <= |d| - j - 1 <= 3 && IsDottedWords(d[..j]);
  }

  /** Dotted words followed by top-level groups form a domain. */
  lemma {:induction false} ExtendDomain(x: string, t: string)
    requires IsDottedWords(x) && RegexTldGroups(t)
    ensures IsDomain(x + t)
    decreases |t|
  {
    if |t| == 3 || (IsWordChar(t[3]) && |t| == 4) {
      LastGroupEndsDomain(x, t);
    } else {
      var n := SplitFirstGroup(t);
      var g, rest := t[..n], t[n..];
      DottedAppendGroup(x, g);
      ExtendDomain(x + g, rest);
      RegroupDomain(x, g, rest);
    }
  }

  lemma RegroupDomain(x: string, g: string, rest: string)
    requires IsDomain((x + g) + rest)
    ensures IsDomain(x + (g + rest))
  {
    assert (x + g) + rest == x + (g + rest);
  }

  /** Groups that are more than one group: the first one ends at `n` and groups follow it. */
  lemma SplitFirstGroup(t: string) returns (n: nat)
    requires RegexTldGroups(t) && !(|t| == 3 || (IsWordChar(t[3]) && |t| == 4))
    ensures 3 <= n <= 4 && n < |t| && RegexTldGroups(t[n..]) && t == t[..n] + t[n..]
    ensures var g := t[..n]; |g| >= 2 && g[0] == '.' && forall i :: 1 <= i < |g| ==> IsWordChar(g[i])
  {
    n := if RegexTldGroups(t[3..]) then 3 else 4;
    assert forall i :: 1 <= i < n ==> t[..n][i] == t[i];
  }

  /** A single last group is a run of top-level groups. */
  lemma LastGroupIsTld(t: string)
    requires 3 <= |t| <= 4 && t[0] == '.' && forall i :: 1 <= i < |t| ==> IsWordChar(t[i])
    ensures RegexTldGroups(t)
  {
  }

  lemma DomainToRegex(d: string)
    requires IsDomain(d)
    ensures RegexDomain(d)
  {
    var j :| 0 <= j < |d| && d[j] == '.' && 2 <= |d| - j - 1 <= 3 && IsDottedWords(d[..j])
             && (forall i :: j < i < |d| ==> IsWordChar(d[i]));
    RunIsDottedWords(d[..j]);
    var t := d[j..];
    assert forall i :: 0 <= i < |t| ==> t[i] == d[j + i];
    LastGroupIsTld(t);
    assert 1 <= j < |d| && RegexRun(d[..j]) && RegexTldGroups(d[j..]);
  }

  lemma RegexToDomain(d: string)
    requires RegexDomain(d)
    ensures IsDomain(d)
  {
    var x :| 1 <= x < |d| && RegexRun(d[..x]) && RegexTldGroups(d[x..]);
    RunIsDottedWords(d[..x]);
    ExtendDomain(d[..x], d[x..]);
    assert d[..x] + d[x..] == d;
  }

  /** The characterisation of the domain agrees with the regular expression's grammar. */
  lemma DomainIsRegexDomain(d: string)
    ensures IsDomain(d) <==> RegexDomain(d)
  {
    if IsDomain(d) {
      DomainToRegex(d);
    }
    if RegexDomain(d) {
      RegexToDomain(d);
    }
  }

  /** `MatchesEmailPattern` accepts exactly what the regular expression accepts. */
  lemma PatternIsRegex(s: string)
    ensures MatchesEmailPattern(s) <==> RegexEmail(s)
  {
    if MatchesEmailPattern(s) {
      var k :| 0 <= k < |s| && s[k] == '@' && IsDottedWords(s[..k]) && IsDomain(s[k + 1..]);
      RunIsDottedWords(s[..k]);
      DomainIsRegexDomain(s[k + 1..]);
    }
    if RegexEmail(s) {
      var k :| 0 <= k < |s| && s[k] == '@' && RegexRun(s[..k]) && RegexDomain(s[k + 1..]);
      RunIsDottedWords(s[..k]);
      DomainIsRegexDomain(s[k + 1..]);
    }
  }

  /** What every stored email satisfies. */
  predicate IsStorable(e: string) {
    Normalise(e) == e && MatchesEmailPattern(e)
  }

  // ---------------------------------------------------------------------------
  // The handler

  /** A document of the collection, as returned with a 201. */
  datatype Entry = Entry(email: string, createdAt: int, source: string)

  /** The JSON reply: a status, the success flag, and a message or the new entry. */
  datatype Response = Response(status: int, success: bool, message: Option<string>, data: Option<Entry>)

  const RequiredMessage: string := "Please provide an email"
  const PatternMessage: string := "Please fill a valid email address"

  /** The message of the validation error the store raises for the email path. */
  function ValidationError(message: string): string {
    "Waitlist validation failed: email: " + message
  }

  /** The reply and the new set of stored emails for one request. */
  function HandleRequest(store: set<string>, httpMethod: string, email: Option<string>, now: int): (out: (Response, set<string>))
    ensures out.0.status == 201 <==> out.1 != store
    ensures out.1 == store || (email.Some? && out.1 == store + {Normalise(email.value)})
  {
    if httpMethod != "POST" then
      (Response(405, false, Some("Method not allowed"), None), store)
    else if email.None? || email.value == "" then
      (Response(400, false, Some("Email is required"), None), store)
    else
      var e := Normalise(email.value);
      if e in store then
        (Response(200, true, Some("You are already on the waitlist!"), None), store)
      else if e == "" then
        (Response(400, false, Some(ValidationError(RequiredMessage)), None), store)
      else if !MatchesEmailPattern(e) then
        (Response(400, false, Some(ValidationError(PatternMessage)), None), store)
      else
        (Response(201, true, None, Some(Entry(e, now, "website"))), store + {e})
  }

  /** Every method but POST is refused with 405 and the store is left alone. */
  lemma NonPostRefused(store: set<string>, httpMethod: string, email: Option<string>, now: int)
    requires httpMethod != "POST"
    ensures HandleRequest(store, httpMethod, email, now) == (Response(405, false, Some("Method not allowed"), None), store)
  {
  }

  /** A POST without an email, or with an empty one, is refused with 400. */
  lemma MissingEmailRefused(store: set<string>, email: Option<string>, now: int)
    requires email == None || email == Some("")
    ensures HandleRequest(store, "POST", email, now) == (Response(400, false, Some("Email is required"), None), store)
  {
  }

  /** An email already on the list, in any case and with any surrounding spaces, gets 200 and adds nothing. */
  lemma ExistingEmailAccepted(store: set<string>, email: string, now: int)
    requires email != "" && Normalise(email) in store
    ensures HandleRequest(store, "POST", Some(email), now).0.status == 200
    ensures HandleRequest(store, "POST", Some(email), now).0.success
    ensures HandleRequest(store, "POST", Some(email), now).1 == store
  {
  }

  /** A new email that passes validation gets 201 and is the one entry added, with the defaults filled in. */
  lemma NewEmailCreated(store: set<string>, email: string, now: int)
    requires email != "" && Normalise(email) !in store && MatchesEmailPattern(Normalise(email))
    ensures var (resp, store') := HandleRequest(store, "POST", Some(email), now);
            && resp.status == 201 && resp.success
            && resp.data == Some(Entry(Normalise(email), now, "website"))
            && store' == store + {Normalise(email)}
            && |store'| == |store| + 1
  {
    assert Normalise(email) != "";
  }

  /** An address written with the Kelvin sign is stored with a plain 'k'. */
  lemma KelvinSignIsLowered(now: int)
    ensures Normalise("\U{212A}@ab.com") == "k@ab.com"
    ensures HandleRequest({}, "POST", Some("\U{212A}@ab.com"), now).0.status == 201
  {
    var s := "\U{212A}@ab.com";
    TrimmedIsFixed(s);
    assert ToLower(s) == "k@ab.com";
    var e := "k@ab.com";
    assert e[..1] == "k" && e[2..] == "ab.com";
    assert "ab.com"[..2] == "ab";
    assert IsDomain("ab.com");
    assert MatchesEmailPattern(e);
    NewEmailCreated({}, s, now);
  }

  /** A new email that fails validation gets 400 with the validation message and adds nothing. */
  lemma InvalidEmailRefused(store: set<string>, email: string, now: int)
    requires email != "" && Normalise(email) !in store && !MatchesEmailPattern(Normalise(email))
    ensures var (resp, store') := HandleRequest(store, "POST", Some(email), now);
            && resp.status == 400 && !resp.success && store' == store
            && resp.message == Some(ValidationError(if Normalise(email) == "" then RequiredMessage else PatternMessage))
  {
  }

  /** Only white space passes the emptiness check but is refused by the store's required rule. */
  lemma BlankEmailRefused(store: set<string>, now: int)
    requires forall e :: e in store ==> IsStorable(e)
    ensures HandleRequest(store, "POST", Some("  "), now).0
            == Response(400, false, Some(ValidationError(RequiredMessage)), None)
  {
    assert TrimStart("  ") == "";
    assert Normalise("  ") == "";
  }

  /** Signing up is idempotent: repeating a request leaves the store as the first one left it, and answers 200. */
  lemma SignupIdempotent(store: set<string>, email: string, now: int, later: int)
    ensures var store1 := HandleRequest(store, "POST", Some(email), now).1;
            var (resp2, store2) := HandleRequest(store1, "POST", Some(email), later);
            && store2 == store1
            && (HandleRequest(store, "POST", Some(email), now).0.status in {200, 201} ==> resp2.status == 200)
  {
  }

  /** Every stored email stays trimmed, lower-case and matching the pattern. */
  lemma StoredEmailsStayValid(store: set<string>, httpMethod: string, email: Option<string>, now: int)
    requires forall e :: e in store ==> IsStorable(e)
    ensures forall e :: e in HandleRequest(store, httpMethod, email, now).1 ==> IsStorable(e)
  {
    if httpMethod == "POST" && email.Some? && email.value != "" {
      NormaliseIdempotent(email.value);
    }
  }

  /** The collection behind the endpoint: the set of emails on the list. */
  class Waitlist {
    var emails: set<string>

    ghost predicate Valid()
      reads this
    {
      forall e :: e in emails ==> IsStorable(e)
    }

    constructor ()
      ensures Valid() && emails == {}
    {
      emails := {};
    }

    /** `handler`: dispatch on the method and the email, creating the entry when it is new and valid. */
    method Handle(httpMethod: string, email: Option<string>, now: int) returns (resp: Response)
      requires Valid()
      modifies this
      ensures Valid()
      ensures (resp, emails) == HandleRequest(old(emails), httpMethod, email, now)
    {
      if httpMethod != "POST" {
        return Response(405, false, Some("Method not allowed"), None);
      }
      if email.None? || email.value == "" {
        return Response(400, false, Some("Email is required"), None);
      }
      var e := Normalise(email.value);
      if e in emails {
        return Response(200, true, Some("You are already on the waitlist!"), None);
      }
      if e == "" {
        return Response(400, false, Some(ValidationError(RequiredMessage)), None);
      }
      if !MatchesEmailPattern(e) {
        return Response(400, false, Some(ValidationError(PatternMessage)), None);
      }
      NormaliseIdempotent(email.value);
      emails := emails + {e};
      resp := Response(201, true, None, Some(Entry(e, now, "website")));
    }
  }
}
