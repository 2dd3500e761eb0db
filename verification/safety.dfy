/**
 * The safety gate that runs before any retrieval: a request that carries
 * citizen-identifiable data (an eight-digit CIN, a Tunisian phone number, an
 * e-mail address) is refused; one that asks for legal or complaint handling is
 * escalated to a human; anything else is allowed.
 *
 * The three regular expressions are modelled by what a backtracking search
 * accepts: some start position and some choice for every optional part at
 * which the whole pattern matches.
 */
module Safety {
  import opened Base
  import opened Chars
  import opened TextUtils

  datatype Action = Allow | Refuse | Escalate {
    /** The string the decision carries in its action field. */
    function Name(): string {
      match this
      case Allow => "allow"
      case Refuse => "refuse"
      case Escalate => "escalate"
    }
  }

  datatype SafetyDecision = SafetyDecision(action: Action, reason: string)

  /** The sensitive-data patterns, by the name they are reported under. */
  datatype Pattern = CinLike | PhoneLike | EmailLike {
    function Name(): string {
      match this
      case CinLike => "cin_like"
      case PhoneLike => "phone_like"
      case EmailLike => "email_like"
    }
  }

  /** The patterns in the order they are tried; the first that matches is reported. */
  const SensitivePatterns: seq<Pattern> := [CinLike, PhoneLike, EmailLike]

  const EscalationKeywords: seq<string> := ["plainte", "r\U{E9}clamation", "tribunal", "menace"]

  const EscalateReason: string := "User requests legal/complaint handling."
  const AllowReason: string := "No sensitive data detected."

  function RefuseReason(p: Pattern): string {
    "Detected sensitive citizen-identifiable data (" + p.Name() + ")."
  }

  // ---------------------------------------------------------------------------
  // Regular-expression building blocks

  /** Whether position i of t holds a word character; positions outside t do not. */
  predicate IsWordAt(t: string, i: int) {
    0 <= i < |t| && IsWordChar(t[i])
  }

  /** \b: a word character on exactly one side of position i. */
  predicate Boundary(t: string, i: int) {
    IsWordAt(t, i - 1) != IsWordAt(t, i)
  }

  /** \d{n} at position i. */
  predicate DigitsAt(t: string, i: nat, n: nat) {
    i + n <= |t| && forall j :: i <= j < i + n ==> IsDigit(t[j])
  }

  /** \s? at position i, consuming s characters (0 or 1). */
  predicate OptSpace(t: string, i: nat, s: nat) {
    s == 0 || (s == 1 && i < |t| && IsSpace(t[i]))
  }

  // ---------------------------------------------------------------------------
  // cin_like: \b\d{8}\b

  predicate CinMatch(t: string, k: nat) {
    Boundary(t, k) && DigitsAt(t, k, 8) && Boundary(t, k + 8)
  }

  // ---------------------------------------------------------------------------
  // phone_like: \b(\+?216)?\s?\d{2}\s?\d{3}\s?\d{3}\b

  /** (\+?216)? at position k, consuming p characters: nothing, "216" or "+216". */
  predicate PhonePrefix(t: string, k: nat, p: nat) {
    || p == 0
    || (p == 3 && k + 3 <= |t| && t[k..k + 3] == "216")
    || (p == 4 && k + 4 <= |t| && t[k..k + 4] == "+216")
  }

  /** The whole phone pattern at k, with the prefix length and the three optional spaces chosen. */
  predicate PhoneMatch(t: string, k: nat, p: nat, s0: nat, s1: nat, s2: nat) {
    var i1 := k + p + s0;
    var i3 := i1 + 2 + s1;
    var i5 := i3 + 3 + s2;
    && Boundary(t, k)
    && PhonePrefix(t, k, p)
    && OptSpace(t, k + p, s0)
    && DigitsAt(t, i1, 2)
    && OptSpace(t, i1 + 2, s1)
    && DigitsAt(t, i3, 3)
    && OptSpace(t, i3 + 3, s2)
    && DigitsAt(t, i5, 3)
    && Boundary(t, i5 + 3)
  }

  predicate PhoneLikeAt(t: string, k: nat) {
    exists p: nat, s0: nat, s1: nat, s2: nat | p <= 4 && s0 <= 1 && s1 <= 1 && s2 <= 1 ::
      PhoneMatch(t, k, p, s0, s1, s2)
  }

  // ---------------------------------------------------------------------------
  // email_like: \b[\w.+-]+@[\w-]+\.[\w.-]+\b

  predicate LocalChar(c: char) {
    IsWordChar(c) || c == '.' || c == '+' || c == '-'
  }

  predicate DomainChar(c: char) {
    IsWordChar(c) || c == '-'
  }

  predicate SuffixChar(c: char) {
    IsWordChar(c) || c == '.' || c == '-'
  }

  /** The address at k: local part t[k..at], '@', domain t[at+1..dot], '.', suffix t[dot+1..e]. */
  predicate EmailMatch(t: string, k: nat, at: nat, dot: nat, e: nat) {
    && k < at && at + 1 < dot && dot + 1 < e <= |t|
    && Boundary(t, k)
    && (forall m :: k <= m < at ==> LocalChar(t[m]))
    && t[at] == '@'
    && (forall m :: at + 1 <= m < dot ==> DomainChar(t[m]))
    && t[dot] == '.'
    && (forall m :: dot + 1 <= m < e ==> SuffixChar(t[m]))
    && Boundary(t, e)
  }

  predicate EmailLikeAt(t: string, k: nat) {
    exists at: nat, dot: nat, e: nat | at <= dot <= e <= |t| :: EmailMatch(t, k, at, dot, e)
  }

  // ---------------------------------------------------------------------------
  // Search

  predicate MatchesAt(p: Pattern, t: string, k: nat) {
    match p
    case CinLike => CinMatch(t, k)
    case PhoneLike => PhoneLikeAt(t, k)
    case EmailLike => EmailLikeAt(t, k)
  }

  /** pattern.search(t) finds something. */
  predicate Search(p: Pattern, t: string) {
    exists k: nat | k <= |t| :: MatchesAt(p, t, k)
  }

  /** The first pattern of ps that t matches, if any. */
  function FirstMatch(ps: seq<Pattern>, t: string): (r: Option<Pattern>)
    ensures r.None? <==> forall i :: 0 <= i < |ps| ==> !Search(ps[i], t)
    ensures r.Some? ==>
      exists i :: (0 <= i < |ps| && ps[i] == r.value && Search(ps[i], t) && forall j :: 0 <= j < i ==> !Search(ps[j], t))
  {
    if ps == [] then None
    else if Search(ps[0], t) then Some(ps[0])
    else
      var r := FirstMatch(ps[1..], t);
      if r.Some? then
        var i :| 0 <= i < |ps[1..]| && ps[1..][i] == r.value && Search(ps[1..][i], t) &&
          (forall j :: 0 <= j < i ==> !Search(ps[1..][j], t));
        assert ps[i + 1] == r.value && forall j :: 1 <= j < i + 1 ==> ps[j] == ps[1..][j - 1];
        r
      else
        assert forall j :: 1 <= j < |ps| ==> ps[j] == ps[1..][j - 1];
        r
  }

  // ---------------------------------------------------------------------------
  // Escalation keywords

  /** w occurs in s at position i. */
  predicate OccursAt(s: string, w: string, i: nat) {
    i + |w| <= |s| && s[i..i + |w|] == w
  }

  /** w occurs in s as a substring. */
  predicate Contains(s: string, w: string) {
    exists i: nat | i <= |s| :: OccursAt(s, w, i)
  }

  predicate HasEscalationKeyword(s: string) {
    exists i :: 0 <= i < |EscalationKeywords| && Contains(s, EscalationKeywords[i])
  }

  // ---------------------------------------------------------------------------
  // check_safety

  /** The decision check_safety returns for user_text. */
  function Decision(userText: string): SafetyDecision {
    var text := Strip(userText);
    match FirstMatch(SensitivePatterns, text)
    case Some(p) => SafetyDecision(Refuse, RefuseReason(p))
    case None =>
      if HasEscalationKeyword(Lower(text)) then SafetyDecision(Escalate, EscalateReason)
      else SafetyDecision(Allow, AllowReason)
  }

  /**
   * check_safety: strips the text, tries the patterns in order and refuses on
   * the first that matches; otherwise escalates on a keyword of the
   * lower-cased text; otherwise allows.
   */
  method CheckSafety(userText: string) returns (d: SafetyDecision)
    ensures d == Decision(userText)
  {
    var text := Strip(userText);
    var i := 0;
    while i < |SensitivePatterns|
      invariant 0 <= i <= |SensitivePatterns|
      invariant FirstMatch(SensitivePatterns, text) == FirstMatch(SensitivePatterns[i..], text)
    {
      var pat := SensitivePatterns[i];
      assert SensitivePatterns[i..][1..] == SensitivePatterns[i + 1..];
      if Search(pat, text) {
        return SafetyDecision(Refuse, RefuseReason(pat));
      }
      i := i + 1;
    }
    if HasEscalationKeyword(Lower(text)) {
      return SafetyDecision(Escalate, EscalateReason);
    }
    return SafetyDecision(Allow, AllowReason);
  }

  // ---------------------------------------------------------------------------
  // Properties of the decision

  /** The decision refuses exactly when a pattern matches, giving that pattern's reason. */
  lemma DecisionRefuses(userText: string)
    ensures var d := Decision(userText);
      var r := FirstMatch(SensitivePatterns, Strip(userText));
      && (d.action == Refuse <==> r.Some?)
      && (r.Some? ==> d.reason == RefuseReason(r.value))
  {
  }

  /** A request is refused exactly when some pattern matches the stripped text. */
  lemma RefuseIff(userText: string)
    ensures var d := Decision(userText);
      && (d.action == Refuse <==>
            exists i :: 0 <= i < |SensitivePatterns| && Search(SensitivePatterns[i], Strip(userText)))
      && (d.action == Refuse ==> exists p :: p in SensitivePatterns && d.reason == RefuseReason(p))
  {
    var text := Strip(userText);
    var r := FirstMatch(SensitivePatterns, text);
    DecisionRefuses(userText);
    if r.Some? {
      var i :| 0 <= i < |SensitivePatterns| && SensitivePatterns[i] == r.value && Search(SensitivePatterns[i], text);
    }
  }

  /** The reason names the first matching pattern: cin_like before phone_like before email_like. */
  lemma RefusePriority(userText: string)
    ensures var d := Decision(userText);
      var text := Strip(userText);
      && (Search(CinLike, text) ==> d == SafetyDecision(Refuse, RefuseReason(CinLike)))
      && (!Search(CinLike, text) && Search(PhoneLike, text) ==> d == SafetyDecision(Refuse, RefuseReason(PhoneLike)))
      && (!Search(CinLike, text) && !Search(PhoneLike, text) && Search(EmailLike, text) ==>
            d == SafetyDecision(Refuse, RefuseReason(EmailLike)))
  {
    var text := Strip(userText);
    var r := FirstMatch(SensitivePatterns, text);
    if r.Some? {
      var i :| 0 <= i < |SensitivePatterns| && SensitivePatterns[i] == r.value && Search(SensitivePatterns[i], text) &&
        (forall j :: 0 <= j < i ==> !Search(SensitivePatterns[j], text));
      assert SensitivePatterns[0] == CinLike && SensitivePatterns[1] == PhoneLike && SensitivePatterns[2] == EmailLike;
      if Search(CinLike, text) {
        assert i == 0;
      } else if Search(PhoneLike, text) {
        assert i == 1;
      } else {
        assert i == 2;
      }
    } else {
      assert !Search(SensitivePatterns[0], text) && !Search(SensitivePatterns[1], text) && !Search(SensitivePatterns[2], text);
    }
  }

  /** A request is escalated exactly when no pattern matches and the lower-cased text holds a keyword. */
  lemma EscalateIff(userText: string)
    ensures var d := Decision(userText);
      var text := Strip(userText);
      && (d.action == Escalate <==>
            (forall i :: 0 <= i < |SensitivePatterns| ==> !Search(SensitivePatterns[i], text)) &&
            HasEscalationKeyword(Lower(text)))
      && (d.action == Escalate ==> d.reason == EscalateReason)
  {
  }

  /** A request is allowed exactly when no pattern matches and no keyword occurs. */
  lemma AllowIff(userText: string)
    ensures var d := Decision(userText);
      var text := Strip(userText);
      && (d.action == Allow <==>
            (forall i :: 0 <= i < |SensitivePatterns| ==> !Search(SensitivePatterns[i], text)) &&
            !HasEscalationKeyword(Lower(text)))
      && (d.action == Allow ==> d.reason == AllowReason)
  {
  }

  // ---------------------------------------------------------------------------
  // What each pattern needs, and examples

  predicate HasDigit(t: string) {
    exists i :: 0 <= i < |t| && IsDigit(t[i])
  }

  /** Both number patterns need a digit in the text. */
  lemma NumberNeedsDigit(t: string)
    ensures Search(CinLike, t) || Search(PhoneLike, t) ==> HasDigit(t)
  {
    if Search(CinLike, t) {
      var k: nat :| k <= |t| && MatchesAt(CinLike, t, k);
      assert IsDigit(t[k]);
    }
    if Search(PhoneLike, t) {
      var k: nat :| k <= |t| && MatchesAt(PhoneLike, t, k);
      var p: nat, s0: nat, s1: nat, s2: nat :| p <= 4 && s0 <= 1 && s1 <= 1 && s2 <= 1 && PhoneMatch(t, k, p, s0, s1, s2);
      assert IsDigit(t[k + p + s0]);
    }
  }

  /** The e-mail pattern needs an '@' in the text. */
  lemma EmailNeedsAt(t: string)
    ensures Search(EmailLike, t) ==> '@' in t
  {
    if Search(EmailLike, t) {
      var k: nat :| k <= |t| && MatchesAt(EmailLike, t, k);
      var at: nat, dot: nat, e: nat :| at <= dot <= e <= |t| && EmailMatch(t, k, at, dot, e);
      assert t[at] == '@';
    }
  }

  /** Eight digits at k with no word character right before or after them match the CIN pattern. */
  lemma CinAt(s: string, k: nat)
    requires DigitsAt(s, k, 8)
    requires k == 0 || !IsWordChar(s[k - 1])
    requires k + 8 == |s| || !IsWordChar(s[k + 8])
    ensures Search(CinLike, s)
  {
    assert IsWordAt(s, k) && IsWordAt(s, k + 7);
    assert MatchesAt(CinLike, s, k);
  }

  /** Stripping the text keeps a standalone run of eight digits standalone. */
  lemma StripKeepsCin(t: string, n: nat)
    requires DigitsAt(t, n, 8)
    requires n == 0 || !IsWordChar(t[n - 1])
    requires n + 8 == |t| || !IsWordChar(t[n + 8])
    ensures Search(CinLike, Strip(t))
  {
    assert IsDigit(t[n]) && IsDigit(t[n + 7]);
    var k := StripKeepsInner(t, n, n + 8);
    var s := Strip(t);
    forall m | k <= m < k + 8 ensures IsDigit(s[m]) {
      assert s[m] == s[k..k + 8][m - k] == t[n..n + 8][m - k];
    }
    CinAt(s, k);
  }

  /** Eight digits between non-word characters or the ends of the text survive stripping as a CIN. */
  lemma StandaloneCinFound(pre: string, digits: string, post: string)
    requires |digits| == 8 && forall i :: 0 <= i < |digits| ==> IsDigit(digits[i])
    requires pre == [] || !IsWordChar(pre[|pre| - 1])
    requires post == [] || !IsWordChar(post[0])
    ensures Search(CinLike, Strip(pre + digits + post))
  {
    var t := pre + digits + post;
    var n := |pre|;
    forall m | n <= m < n + 8 ensures IsDigit(t[m]) {
      assert t[m] == digits[m - n];
    }
    StripKeepsCin(t, n);
  }

  /**
   * Eight digits standing alone, between non-word characters or the ends of
   * the text, are refused as a CIN whatever surrounds them.
   */
  lemma StandaloneCinRefused(pre: string, digits: string, post: string)
    requires |digits| == 8 && forall i :: 0 <= i < |digits| ==> IsDigit(digits[i])
    requires pre == [] || !IsWordChar(pre[|pre| - 1])
    requires post == [] || !IsWordChar(post[0])
    ensures Decision(pre + digits + post) == SafetyDecision(Refuse, RefuseReason(CinLike))
  {
    StandaloneCinFound(pre, digits, post);
    RefusePriority(pre + digits + post);
  }

  /** With no digit and no '@', a keyword anywhere in the lower-cased text escalates. */
  lemma KeywordEscalates(userText: string, w: string)
    requires !HasDigit(Strip(userText)) && '@' !in Strip(userText)
    requires w in EscalationKeywords && Contains(Lower(Strip(userText)), w)
    ensures Decision(userText) == SafetyDecision(Escalate, EscalateReason)
  {
    var text := Strip(userText);
    NumberNeedsDigit(text);
    EmailNeedsAt(text);
    assert !Search(SensitivePatterns[0], text) && !Search(SensitivePatterns[1], text) && !Search(SensitivePatterns[2], text);
    EscalateIff(userText);
  }

  /** The slice of text at k, whatever its capitals, lower-cases to w. */
  predicate CasedAt(text: string, w: string, k: nat) {
    k + |w| <= |text| && Lower(text[k..k + |w|]) == w
  }

  /**
   * The keyword test ignores case: the lower-cased text contains w exactly
   * when some slice of the text lower-cases to w.
   */
  lemma ContainsIgnoringCase(text: string, w: string)
    ensures Contains(Lower(text), w) <==> exists k: nat :: CasedAt(text, w, k)
  {
    var lower := Lower(text);
    if Contains(lower, w) {
      var i: nat :| i <= |lower| && OccursAt(lower, w, i);
      LowerSlice(text, i, i + |w|);
      assert CasedAt(text, w, i);
    }
    if exists k: nat :: CasedAt(text, w, k) {
      var k: nat :| CasedAt(text, w, k);
      LowerSlice(text, k, k + |w|);
      assert OccursAt(lower, w, k);
    }
  }

  /** With no digit and no '@', a keyword written with any capitals escalates. */
  lemma KeywordAnyCaseEscalates(userText: string, w: string, k: nat)
    requires !HasDigit(Strip(userText)) && '@' !in Strip(userText)
    requires w in EscalationKeywords
    requires CasedAt(Strip(userText), w, k)
    ensures Decision(userText) == SafetyDecision(Escalate, EscalateReason)
  {
    var text := Strip(userText);
    LowerSlice(text, k, k + |w|);
    assert OccursAt(Lower(text), w, k);
    KeywordEscalates(userText, w);
  }

  /** The sensitive-data query of the evaluation scenarios is refused for its CIN. */
  lemma RefusesCinQuery(query: string)
    requires query == "Mon CIN est " + "01234567" + ", peux-tu v\U{E9}rifier mon statut ?"
    ensures Decision(query) == SafetyDecision(Refuse, RefuseReason(CinLike))
  {
    StandaloneCinRefused("Mon CIN est ", "01234567", ", peux-tu v\U{E9}rifier mon statut ?");
  }

  /**
   * Eight digits in a row are reported as a CIN even when they were meant as
   * a phone number: the CIN pattern is tried first.
   */
  lemma EightDigitPhoneReportedAsCin(query: string)
    requires query == "22333444"
    ensures Decision(query) == SafetyDecision(Refuse, RefuseReason(CinLike))
  {
    StandaloneCinRefused([], query, []);
    assert [] + query + [] == query;
  }

  /** A complaint in capitals, with no number and no address, is escalated. */
  lemma EscalatesComplaint()
    ensures Decision("Je veux d\U{E9}poser une " + "PLAINTE") ==
      SafetyDecision(Escalate, EscalateReason)
  {
    var t := "Je veux d\U{E9}poser une " + "PLAINTE";
    StripStripped(t);
    assert !HasDigit(t);
    assert '@' !in t;
    assert t[20..27] == "PLAINTE";
    LowerComplaint();
    KeywordAnyCaseEscalates(t, EscalationKeywords[0], 20);
  }

  lemma LowerComplaint()
    ensures Lower("PLAINTE") == EscalationKeywords[0]
  {
    assert Lower("PLAINTE") == "plainte";
  }

  lemma GroupedPhoneHasNoCin(query: string)
    requires query == "22 333 444"
    ensures !Search(CinLike, query)
  {
    forall k: nat | k <= |query| ensures !MatchesAt(CinLike, query, k) {
      if k + 8 <= |query| {
        assert !IsDigit(query[6]);
      }
    }
  }

  lemma GroupedPhoneMatches(query: string)
    requires query == "22 333 444"
    ensures Search(PhoneLike, query)
  {
    assert PhoneMatch(query, 0, 0, 0, 1, 1);
    assert MatchesAt(PhoneLike, query, 0);
  }

  /** A local phone number written in groups is refused as phone_like. */
  lemma RefusesGroupedPhone(query: string)
    requires query == "22 333 444"
    ensures Decision(query) == SafetyDecision(Refuse, RefuseReason(PhoneLike))
  {
    StripStripped(query);
    GroupedPhoneHasNoCin(query);
    GroupedPhoneMatches(query);
    RefusePriority(query);
  }

  /** Surrounding whitespace never changes the decision: the text is stripped first. */
  lemma DecisionIgnoresOuterWhitespace(userText: string)
    ensures Decision(Strip(userText)) == Decision(userText)
  {
    StripIdempotent(userText);
  }
}
