/**
 * The two blur-time validators of the site script.
 *
 * validateEmail tests the whole value against the pattern
 *   ^[^\s@]+@[^\s@]+\.[^\s@]+$
 * and validatePhone first deletes every character that is not an ASCII
 * digit or '+', then tests the rest against
 *   ^[\+]?[1-9][\d]{0,15}$
 *
 * Each pattern is modelled as the deterministic automaton that recognises
 * it, run one character at a time, and each automaton is proved to accept
 * exactly the strings described by a plain-words predicate.
 */
module Validation {

  // ---------------------------------------------------------------------
  // Character classes
  // ---------------------------------------------------------------------

  /** The ECMAScript class \s: the WhiteSpace and LineTerminator code points. */
  predicate IsWhitespace(c: char)
  {
    var n := c as int;
    n == 0x09 || n == 0x0A || n == 0x0B || n == 0x0C || n == 0x0D || n == 0x20 ||
    n == 0xA0 || n == 0x1680 || (0x2000 <= n <= 0x200A) || n == 0x2028 || n == 0x2029 ||
    n == 0x202F || n == 0x205F || n == 0x3000 || n == 0xFEFF
  }

  /** The class [^\s@]. */
  predicate IsEmailChar(c: char)
  {
    !IsWhitespace(c) && c != '@'
  }

  /** The class \d (ASCII digits only: the pattern has no unicode flag). */
  predicate IsDigit(c: char)
  {
    '0' <= c <= '9'
  }

  /** The class [1-9]. */
  predicate IsNonZeroDigit(c: char)
  {
    '1' <= c <= '9'
  }

  predicate AllEmailChars(s: string)
  {
    forall i | 0 <= i < |s| :: IsEmailChar(s[i])
  }

  predicate AllDigits(s: string)
  {
    forall i | 0 <= i < |s| :: IsDigit(s[i])
  }

  // ---------------------------------------------------------------------
  // Email
  // ---------------------------------------------------------------------

  /** A domain part: no whitespace, no '@', and a '.' with a character on each side. */
  predicate DomainShape(d: string)
  {
    AllEmailChars(d) && exists dot | 0 < dot < |d| - 1 :: d[dot] == '.'
  }

  /**
   * Plain-words form of an acceptable address: the value splits at an '@'
   * into a non-empty local part and a domain part, neither holding
   * whitespace or another '@', and the domain holds a '.' that has at least
   * one character before and after it.
   */
  predicate EmailShape(s: string)
  {
    exists at | 0 < at < |s| :: SplitsAt(s, at)
  }

  /** The states of the automaton for ^[^\s@]+@[^\s@]+\.[^\s@]+$ */
  datatype EmailState =
    | LocalEmpty     // nothing read yet
    | LocalPart      // one or more local characters read
    | DomainEmpty    // '@' read, no domain character yet
    | DomainNoDot    // domain characters read, no '.' after the first one yet
    | DomainDot      // a '.' after the first domain character was just read
    | DomainDone     // a '.' with a character on each side has been read
    | EmailRejected

  function EmailStep(st: EmailState, c: char): EmailState
  {
    match st
    case LocalEmpty => if IsEmailChar(c) then LocalPart else EmailRejected
    case LocalPart => if c == '@' then DomainEmpty else if IsEmailChar(c) then LocalPart else EmailRejected
    case DomainEmpty => if IsEmailChar(c) then DomainNoDot else EmailRejected
    case DomainNoDot => if c == '.' then DomainDot else if IsEmailChar(c) then DomainNoDot else EmailRejected
    case DomainDot => if IsEmailChar(c) then DomainDone else EmailRejected
    case DomainDone => if IsEmailChar(c) then DomainDone else EmailRejected
    case EmailRejected => EmailRejected
  }

  function EmailRun(st: EmailState, s: string): bool
    decreases |s|
  {
    if s == [] then st == DomainDone else EmailRun(EmailStep(st, s[0]), s[1..])
  }

  /** validateEmail (main.js:279-282). */
  predicate ValidateEmail(s: string)
  {
    EmailRun(LocalEmpty, s)
  }

  lemma {:induction false} EmailRejectedStays(s: string)
    ensures !EmailRun(EmailRejected, s)
    decreases |s|
  {
    if s != [] {
      EmailRejectedStays(s[1..]);
    }
  }

  lemma AllEmailCharsCons(s: string)
    requires s != []
    ensures AllEmailChars(s) <==> IsEmailChar(s[0]) && AllEmailChars(s[1..])
  {
    if IsEmailChar(s[0]) && AllEmailChars(s[1..]) {
      forall i | 1 <= i < |s| ensures IsEmailChar(s[i]) {
        assert s[i] == s[1..][i - 1];
      }
    }
  }

  /** Once a '.' has a character on each side, any further [^\s@] characters are accepted. */
  lemma {:induction false} EmailRunDone(t: string)
    ensures EmailRun(DomainDone, t) <==> AllEmailChars(t)
    decreases |t|
  {
    if t != [] {
      AllEmailCharsCons(t);
      if IsEmailChar(t[0]) {
        EmailRunDone(t[1..]);
      } else {
        EmailRejectedStays(t[1..]);
      }
    }
  }

  lemma EmailRunDot(t: string)
    ensures EmailRun(DomainDot, t) <==> |t| >= 1 && AllEmailChars(t)
  {
    if t != [] {
      AllEmailCharsCons(t);
      if IsEmailChar(t[0]) {
        EmailRunDone(t[1..]);
      } else {
        EmailRejectedStays(t[1..]);
      }
    }
  }

  /** After the first domain character: accepted iff a later '.' is followed by a character. */
  lemma {:induction false} EmailRunNoDot(t: string)
    ensures EmailRun(DomainNoDot, t) <==> AllEmailChars(t) && exists d | 0 <= d < |t| - 1 :: t[d] == '.'
    decreases |t|
  {
    if t != [] {
      var u := t[1..];
      AllEmailCharsCons(t);
      if t[0] == '.' {
        EmailRunDot(u);
        if AllEmailChars(t) && |u| >= 1 {
          assert t[0] == '.' && 0 < |t| - 1;
        }
      } else if IsEmailChar(t[0]) {
        EmailRunNoDot(u);
        if exists d | 0 <= d < |u| - 1 :: u[d] == '.' {
          var d :| 0 <= d < |u| - 1 && u[d] == '.';
          assert t[d + 1] == '.';
        }
        if exists d | 0 <= d < |t| - 1 :: t[d] == '.' {
          var d :| 0 <= d < |t| - 1 && t[d] == '.';
          assert d != 0;
          assert u[d - 1] == '.';
        }
      } else {
        EmailRejectedStays(u);
      }
    }
  }

  lemma EmailRunDomain(t: string)
    ensures EmailRun(DomainEmpty, t) <==> DomainShape(t)
  {
    if t != [] {
      var u := t[1..];
      AllEmailCharsCons(t);
      if IsEmailChar(t[0]) {
        EmailRunNoDot(u);
        if exists d | 0 <= d < |u| - 1 :: u[d] == '.' {
          var d :| 0 <= d < |u| - 1 && u[d] == '.';
          assert t[d + 1] == '.';
        }
        if exists dot | 0 < dot < |t| - 1 :: t[dot] == '.' {
          var dot :| 0 < dot < |t| - 1 && t[dot] == '.';
          assert u[dot - 1] == '.';
        }
      } else {
        EmailRejectedStays(u);
      }
    }
  }

  /** The value splits at index at: a [^\s@]* prefix, the '@', then a valid domain. */
  predicate SplitsAt(t: string, at: int)
  {
    0 <= at < |t| && t[at] == '@' && AllEmailChars(t[..at]) && DomainShape(t[at + 1..])
  }

  /** The rest of an address after its first character: some '@' ends a [^\s@]* prefix and starts a valid domain. */
  predicate LocalShape(t: string)
  {
    exists at | 0 <= at < |t| :: SplitsAt(t, at)
  }

  lemma SplitsAtCons(c: char, u: string, at: int)
    requires IsEmailChar(c) && 0 <= at < |u|
    ensures SplitsAt([c] + u, at + 1) <==> SplitsAt(u, at)
  {
    var t := [c] + u;
    assert t[..at + 1] == [c] + u[..at];
    AllEmailCharsCons(t[..at + 1]);
    assert t[..at + 1][1..] == u[..at];
    assert t[at + 2..] == u[at + 1..];
    assert t[at + 1] == u[at];
  }

  /** Reading one more [^\s@] character neither creates nor destroys a split point. */
  lemma LocalShapeCons(c: char, u: string)
    requires IsEmailChar(c)
    ensures LocalShape([c] + u) <==> LocalShape(u)
  {
    var t := [c] + u;
    if LocalShape(u) {
      var at :| 0 <= at < |u| && SplitsAt(u, at);
      SplitsAtCons(c, u, at);
    }
    if LocalShape(t) {
      var at :| 0 <= at < |t| && SplitsAt(t, at);
      assert at != 0;
      SplitsAtCons(c, u, at - 1);
    }
  }

  /** A leading '@' is the only possible split point. */
  lemma LocalShapeAt(u: string)
    ensures LocalShape(['@'] + u) <==> DomainShape(u)
  {
    var t := ['@'] + u;
    assert t[..0] == [] && t[1..] == u;
    assert SplitsAt(t, 0) <==> DomainShape(u);
    forall at | 0 < at < |t|
      ensures !SplitsAt(t, at)
    {
      assert t[..at][0] == '@';
    }
  }

  /** A character that is neither [^\s@] nor '@' rules out every split point. */
  lemma LocalShapeBad(t: string)
    requires t != [] && !IsEmailChar(t[0]) && t[0] != '@'
    ensures !LocalShape(t)
  {
    forall at | 0 <= at < |t|
      ensures !SplitsAt(t, at)
    {
      if at > 0 {
        assert t[..at][0] == t[0];
      }
    }
  }

  /** Inside the local part the automaton accepts exactly LocalShape. */
  lemma {:induction false} EmailRunLocal(t: string)
    ensures EmailRun(LocalPart, t) <==> LocalShape(t)
    decreases |t|
  {
    if t != [] {
      var u := t[1..];
      assert t == [t[0]] + u;
      if t[0] == '@' {
        EmailRunDomain(u);
        LocalShapeAt(u);
      } else if IsEmailChar(t[0]) {
        EmailRunLocal(u);
        LocalShapeCons(t[0], u);
      } else {
        EmailRejectedStays(u);
        LocalShapeBad(t);
      }
    }
  }

  /** An address splits as one [^\s@] character followed by LocalShape. */
  lemma EmailShapeCons(s: string)
    ensures EmailShape(s) <==> s != [] && IsEmailChar(s[0]) && LocalShape(s[1..])
  {
    if s != [] {
      var u := s[1..];
      assert s == [s[0]] + u;
      if IsEmailChar(s[0]) && LocalShape(u) {
        var at :| 0 <= at < |u| && SplitsAt(u, at);
        SplitsAtCons(s[0], u, at);
      }
      if EmailShape(s) {
        var at :| 0 < at < |s| && SplitsAt(s, at);
        AllEmailCharsCons(s[..at]);
        assert s[..at][0] == s[0];
        SplitsAtCons(s[0], u, at - 1);
      }
    }
  }

  /** validateEmail accepts exactly the strings of EmailShape. */
  lemma ValidateEmailIffShape(s: string)
    ensures ValidateEmail(s) <==> EmailShape(s)
  {
    EmailShapeCons(s);
    if s != [] {
      if IsEmailChar(s[0]) {
        EmailRunLocal(s[1..]);
      } else {
        EmailRejectedStays(s[1..]);
      }
    }
  }

  /**
   * The same set in the words of the site's own requirement: no whitespace
   * anywhere, exactly one '@' and it is not the first character, and after
   * it a '.' with at least one character on each side.
   */
  predicate EmailWords(s: string)
  {
    && (forall i | 0 <= i < |s| :: !IsWhitespace(s[i]))
    && exists at | 0 < at < |s| ::
         && s[at] == '@'
         && (forall j | 0 <= j < |s| && s[j] == '@' :: j == at)
         && (exists dot | at + 1 < dot < |s| - 1 :: s[dot] == '.')
  }

  lemma SplitsAtIffWords(s: string, at: int)
    requires 0 < at < |s| && s[at] == '@'
    ensures SplitsAt(s, at) <==>
            && (forall i | 0 <= i < |s| :: !IsWhitespace(s[i]))
            && (forall j | 0 <= j < |s| && s[j] == '@' :: j == at)
            && (exists dot | at + 1 < dot < |s| - 1 :: s[dot] == '.')
  {
    var d := s[at + 1..];
    if SplitsAt(s, at) {
      forall i | 0 <= i < |s| ensures !IsWhitespace(s[i]) && (s[i] == '@' ==> i == at) {
        if i < at {
          assert s[i] == s[..at][i];
        } else if i > at {
          assert s[i] == d[i - at - 1];
        }
      }
      var dot :| 0 < dot < |d| - 1 && d[dot] == '.';
      assert s[at + 1 + dot] == '.';
    }
    if && (forall i | 0 <= i < |s| :: !IsWhitespace(s[i]))
       && (forall j | 0 <= j < |s| && s[j] == '@' :: j == at)
       && (exists dot | at + 1 < dot < |s| - 1 :: s[dot] == '.')
    {
      forall i | 0 <= i < at ensures IsEmailChar(s[..at][i]) {
        assert s[..at][i] == s[i];
      }
      forall i | 0 <= i < |d| ensures IsEmailChar(d[i]) {
        assert d[i] == s[at + 1 + i];
      }
      var dot :| at + 1 < dot < |s| - 1 && s[dot] == '.';
      assert d[dot - at - 1] == '.';
    }
  }

  /** validateEmail's shape, restated: exactly one '@', no whitespace, a '.' inside the domain. */
  lemma EmailShapeIffWords(s: string)
    ensures EmailShape(s) <==> EmailWords(s)
  {
    if EmailShape(s) {
      var at :| 0 < at < |s| && SplitsAt(s, at);
      SplitsAtIffWords(s, at);
    }
    if EmailWords(s) {
      var at :| 0 < at < |s| && s[at] == '@'
             && (forall j | 0 <= j < |s| && s[j] == '@' :: j == at)
             && (exists dot | at + 1 < dot < |s| - 1 :: s[dot] == '.');
      SplitsAtIffWords(s, at);
    }
  }

  /** The examples the site's behaviour is described by. */
  lemma EmailExamples()
    ensures ValidateEmail("a@b.co")
    ensures !ValidateEmail("a@b")
    ensures !ValidateEmail("a b@c.com")
    ensures !ValidateEmail("")
  {
    assert EmailRun(DomainDone, "o");
    assert EmailRun(DomainDot, "co");
    assert EmailRun(DomainNoDot, ".co");
    assert EmailRun(DomainEmpty, "b.co");
    assert EmailRun(LocalPart, "@b.co");
    assert !EmailRun(DomainNoDot, "");
    assert !EmailRun(DomainEmpty, "b");
    assert !EmailRun(LocalPart, "@b");
    EmailRejectedStays("b@c.com");
  }

  // ---------------------------------------------------------------------
  // Phone
  // ---------------------------------------------------------------------

  /** The characters the replace step keeps: [\d\+]. */
  predicate IsKeptPhoneChar(c: char)
  {
    IsDigit(c) || c == '+'
  }

  /**
   * The stripping step of validatePhone: deletes every character that is not
   * an ASCII digit or '+'. Every '+' survives, not only a leading one.
   */
  function StripPhone(s: string): (r: string)
    ensures |r| <= |s|
    ensures forall i | 0 <= i < |r| :: IsKeptPhoneChar(r[i])
    decreases |s|
  {
    if s == [] then []
    else if IsKeptPhoneChar(s[0]) then [s[0]] + StripPhone(s[1..]) else StripPhone(s[1..])
  }

  /** Stripping works character by character, so it keeps the original order. */
  lemma {:induction false} StripPhoneConcat(a: string, b: string)
    ensures StripPhone(a + b) == StripPhone(a) + StripPhone(b)
    decreases |a|
  {
    if a != [] {
      assert (a + b)[0] == a[0];
      assert (a + b)[1..] == a[1..] + b;
      StripPhoneConcat(a[1..], b);
    } else {
      assert a + b == b;
    }
  }

  /** Stripping keeps every digit and every '+': each occurs as often as in the input. */
  lemma {:induction false} StripPhoneKeepsCounts(s: string, c: char)
    requires IsKeptPhoneChar(c)
    ensures multiset(StripPhone(s))[c] == multiset(s)[c]
    decreases |s|
  {
    if s != [] {
      assert s == [s[0]] + s[1..];
      StripPhoneKeepsCounts(s[1..], c);
    }
  }

  /** A string made only of digits and '+' is left as it is. */
  lemma {:induction false} StripPhoneKeepsKept(s: string)
    requires forall i | 0 <= i < |s| :: IsKeptPhoneChar(s[i])
    ensures StripPhone(s) == s
    decreases |s|
  {
    if s != [] {
      StripPhoneKeepsKept(s[1..]);
    }
  }

  lemma StripPhoneIdempotent(s: string)
    ensures StripPhone(StripPhone(s)) == StripPhone(s)
  {
    StripPhoneKeepsKept(StripPhone(s));
  }

  /** Plain-words form: an optional '+', a digit 1-9, then 0 to 15 further digits. */
  predicate PhoneShape(t: string)
  {
    var body := if t != [] && t[0] == '+' then t[1..] else t;
    1 <= |body| <= 16 && IsNonZeroDigit(body[0]) && AllDigits(body[1..])
  }

  /** The states of the automaton for ^[\+]?[1-9][\d]{0,15}$ */
  datatype PhoneState =
    | PhoneStart
    | AfterPlus          // the optional '+' was read
    | Digits(extra: nat) // the leading 1-9 and `extra` further digits were read
    | PhoneRejected

  function PhoneStep(st: PhoneState, c: char): PhoneState
  {
    match st
    case PhoneStart => if c == '+' then AfterPlus else if IsNonZeroDigit(c) then Digits(0) else PhoneRejected
    case AfterPlus => if IsNonZeroDigit(c) then Digits(0) else PhoneRejected
    case Digits(n) => if IsDigit(c) && n < 15 then Digits(n + 1) else PhoneRejected
    case PhoneRejected => PhoneRejected
  }

  function PhoneRun(st: PhoneState, s: string): bool
    decreases |s|
  {
    if s == [] then st.Digits? else PhoneRun(PhoneStep(st, s[0]), s[1..])
  }

  /** validatePhone (main.js:284-287). */
  predicate ValidatePhone(s: string)
  {
    PhoneRun(PhoneStart, StripPhone(s))
  }

  lemma {:induction false} PhoneRejectedStays(s: string)
    ensures !PhoneRun(PhoneRejected, s)
    decreases |s|
  {
    if s != [] {
      PhoneRejectedStays(s[1..]);
    }
  }

  lemma AllDigitsCons(s: string)
    requires s != []
    ensures AllDigits(s) <==> IsDigit(s[0]) && AllDigits(s[1..])
  {
    if IsDigit(s[0]) && AllDigits(s[1..]) {
      forall i | 1 <= i < |s| ensures IsDigit(s[i]) {
        assert s[i] == s[1..][i - 1];
      }
    }
  }

  /** After the leading digit and n more, the rest is accepted iff it is at most 15 - n digits. */
  lemma {:induction false} PhoneRunDigits(n: nat, t: string)
    requires n <= 15
    ensures PhoneRun(Digits(n), t) <==> n + |t| <= 15 && AllDigits(t)
    decreases |t|
  {
    if t != [] {
      AllDigitsCons(t);
      if IsDigit(t[0]) && n < 15 {
        PhoneRunDigits(n + 1, t[1..]);
      } else {
        PhoneRejectedStays(t[1..]);
      }
    }
  }

  lemma PhoneRunBody(t: string)
    ensures PhoneRun(AfterPlus, t) <==> 1 <= |t| <= 16 && IsNonZeroDigit(t[0]) && AllDigits(t[1..])
  {
    if t != [] {
      if IsNonZeroDigit(t[0]) {
        PhoneRunDigits(0, t[1..]);
      } else {
        PhoneRejectedStays(t[1..]);
      }
    }
  }

  /** The automaton accepts exactly PhoneShape. */
  lemma PhoneRunIffShape(t: string)
    ensures PhoneRun(PhoneStart, t) <==> PhoneShape(t)
  {
    if t != [] {
      if t[0] == '+' {
        PhoneRunBody(t[1..]);
      } else {
        assert PhoneRun(PhoneStart, t) == PhoneRun(AfterPlus, t);
        PhoneRunBody(t);
      }
    }
  }

  /** validatePhone holds iff the stripped value is an optional '+', a digit 1-9 and 0 to 15 digits. */
  lemma ValidatePhoneIffShape(s: string)
    ensures ValidatePhone(s) <==> PhoneShape(StripPhone(s))
  {
    PhoneRunIffShape(StripPhone(s));
  }

  /** Because every '+' survives stripping, a '+' anywhere but first rejects the value. */
  lemma ValidatePhoneNoLaterPlus(s: string, i: int)
    requires 0 < i < |StripPhone(s)| && StripPhone(s)[i] == '+'
    ensures !ValidatePhone(s)
  {
    ValidatePhoneIffShape(s);
  }

  /** On a value made only of digits and '+', validatePhone is PhoneShape of the value itself. */
  lemma ValidatePhoneOfKept(s: string)
    requires forall i | 0 <= i < |s| :: IsKeptPhoneChar(s[i])
    ensures ValidatePhone(s) <==> PhoneShape(s)
  {
    StripPhoneKeepsKept(s);
    ValidatePhoneIffShape(s);
  }

  lemma PhoneExampleInternational()
    ensures ValidatePhone("+15551234567")
  {
    var s := "+15551234567";
    assert PhoneShape(s) by {
      assert s[1..] == "15551234567" && s[1..][1..] == "5551234567";
    }
    ValidatePhoneOfKept(s);
  }

  lemma PhoneExampleNational()
    ensures ValidatePhone("5551234567")
  {
    var s := "5551234567";
    assert PhoneShape(s) by {
      assert s[1..] == "551234567";
    }
    ValidatePhoneOfKept(s);
  }

  lemma PhoneExamplesRejected()
    ensures !ValidatePhone("0123")
    ensures !ValidatePhone("abc")
    ensures !ValidatePhone("")
  {
    StripPhoneKeepsKept("0123");
    PhoneRejectedStays("123");
    assert StripPhone("abc") == [];
  }
}
