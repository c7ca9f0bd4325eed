/** The two input validators of src/middleware/validate.ts. Each is one
    anchored regular-expression test; here each regex is written out as the
    predicate describing the language it accepts, and lemmas state what every
    accepted string looks like. */
module Validate {

  /** Number of occurrences of `c` in `s`. */
  function Occurrences(s: string, c: char): (n: nat)
    ensures n <= |s|
  {
    if |s| == 0 then 0 else (if s[0] == c then 1 else 0) + Occurrences(s[1..], c)
  }

  lemma {:induction false} OccurrencesConcat(s: string, t: string, c: char)
    ensures Occurrences(s + t, c) == Occurrences(s, c) + Occurrences(t, c)
  {
    if |s| == 0 {
      assert s + t == t;
    } else {
      assert (s + t)[1..] == s[1..] + t;
      OccurrencesConcat(s[1..], t, c);
    }
  }

  lemma {:induction false} OccurrencesNone(s: string, c: char)
    requires forall i :: 0 <= i < |s| ==> s[i] != c
    ensures Occurrences(s, c) == 0
  {
    if |s| > 0 {
      OccurrencesNone(s[1..], c);
    }
  }

  lemma {:induction false} OccurrencesPositive(s: string, c: char, i: nat)
    requires i < |s| && s[i] == c
    ensures Occurrences(s, c) > 0
  {
    if i > 0 {
      OccurrencesPositive(s[1..], c, i - 1);
    }
  }

  // ---------------------------------------------------------------------------
  // validateEmail: /^[^\s@]+@[^\s@]+\.[^\s@]+$/

  /** JavaScript's `\s` class: the ECMAScript white-space and line-terminator
      characters. */
  predicate IsSpace(c: char)
  {
    c == ' ' || c == '\t' || c == '\n' || c == '\r' || c == '\U{000B}' || c == '\U{000C}' ||
    c == '\U{00A0}' || c == '\U{1680}' || ('\U{2000}' <= c <= '\U{200A}') ||
    c == '\U{2028}' || c == '\U{2029}' || c == '\U{202F}' || c == '\U{205F}' ||
    c == '\U{3000}' || c == '\U{FEFF}'
  }

  /** The class `[^\s@]`. */
  predicate Plain(c: char)
  {
    !IsSpace(c) && c != '@'
  }

  /** `[^\s@]+`: a non-empty run of plain characters. */
  predicate PlainRun(s: string)
  {
    |s| > 0 && forall i :: 0 <= i < |s| ==> Plain(s[i])
  }

  /** The regex matches `s` with its '@' at index `at` and the '.' it uses at `dot`. */
  predicate EmailSplit(s: string, at: nat, dot: nat)
  {
    at < dot < |s| && s[at] == '@' && s[dot] == '.' &&
    PlainRun(s[..at]) && PlainRun(s[at + 1..dot]) && PlainRun(s[dot + 1..])
  }

  /** validateEmail (src/middleware/validate.ts:1-4). */
  predicate ValidateEmail(s: string)
  {
    exists at: nat, dot: nat | at < dot < |s| :: EmailSplit(s, at, dot)
  }

  /** The domain part contains a '.' with at least one character on each side. */
  predicate HasInnerDot(d: string)
  {
    exists p: nat | 0 < p < |d| - 1 :: d[p] == '.'
  }

  /** The address as local part, '@' and domain: the local part is a
      non-empty run without white space or '@', the domain has no white space
      or '@', and the domain has an inner '.'. This reads the regex as the
      usual address shape; the lemma below proves the two agree. */
  predicate AddressShape(s: string, at: nat)
  {
    at < |s| && s[at] == '@' && PlainRun(s[..at]) &&
    (forall i :: at < i < |s| ==> Plain(s[i])) && HasInnerDot(s[at + 1..])
  }

  lemma EmailIffAddressShape(s: string)
    ensures ValidateEmail(s) <==> exists at: nat | at < |s| :: AddressShape(s, at)
  {
    if ValidateEmail(s) {
      var at: nat, dot: nat :| at < dot < |s| && EmailSplit(s, at, dot);
      forall i | at < i < |s|
        ensures Plain(s[i])
      {
        if i < dot {
          assert s[i] == s[at + 1..dot][i - at - 1];
        } else if i > dot {
          assert s[i] == s[dot + 1..][i - dot - 1];
        }
      }
      var d := s[at + 1..];
      assert d[dot - at - 1] == '.';
      assert HasInnerDot(d);
      assert AddressShape(s, at);
    }
    if exists at: nat | at < |s| :: AddressShape(s, at) {
      var at: nat :| at < |s| && AddressShape(s, at);
      var d := s[at + 1..];
      var p: nat :| 0 < p < |d| - 1 && d[p] == '.';
      var dot := at + 1 + p;
      assert s[dot] == '.';
      forall i | at + 1 <= i < |s|
        ensures Plain(s[i])
      {
        assert s[i] == d[i - at - 1];
      }
      assert EmailSplit(s, at, dot);
    }
  }

  /** An accepted address holds exactly one '@'; so a string with none or with
      two or more is rejected. */
  lemma EmailHasOneAt(s: string)
    requires ValidateEmail(s)
    ensures Occurrences(s, '@') == 1
  {
    var at: nat, dot: nat :| at < dot < |s| && EmailSplit(s, at, dot);
    var rest := s[at + 1..];
    assert forall i :: 0 <= i < |rest| ==> rest[i] != '@' by {
      forall i | 0 <= i < |rest|
        ensures rest[i] != '@'
      {
        var j := at + 1 + i;
        if j < dot {
          assert rest[i] == s[at + 1..dot][j - at - 1];
        } else if j > dot {
          assert rest[i] == s[dot + 1..][j - dot - 1];
        }
      }
    }
    assert s == s[..at] + [s[at]] + rest;
    OccurrencesConcat(s[..at] + [s[at]], rest, '@');
    OccurrencesConcat(s[..at], [s[at]], '@');
    OccurrencesNone(s[..at], '@');
    OccurrencesNone(rest, '@');
  }

  lemma EmailRejectsAtCount(s: string)
    requires Occurrences(s, '@') != 1
    ensures !ValidateEmail(s)
  {
    if ValidateEmail(s) {
      EmailHasOneAt(s);
    }
  }

  /** No accepted address contains a white-space character. */
  lemma EmailHasNoSpace(s: string)
    requires ValidateEmail(s)
    ensures forall i :: 0 <= i < |s| ==> !IsSpace(s[i])
  {
    var at: nat, dot: nat :| at < dot < |s| && EmailSplit(s, at, dot);
    forall i | 0 <= i < |s|
      ensures !IsSpace(s[i])
    {
      if i < at {
        assert s[i] == s[..at][i];
      } else if at < i < dot {
        assert s[i] == s[at + 1..dot][i - at - 1];
      } else if i > dot {
        assert s[i] == s[dot + 1..][i - dot - 1];
      }
    }
  }

  /** The accepted case printed next to the definition
      (src/middleware/validate.ts:6). */
  lemma EmailAccepted()
    ensures ValidateEmail("example@example.com")
  {
    var s := "example@example.com";
    assert EmailSplit(s, 7, 15) by {
      assert s[..7] == "example";
      assert s[8..15] == "example";
      assert s[16..] == "com";
    }
  }

  /** The rejected case printed next to the definition
      (src/middleware/validate.ts:7): the domain has no '.'. */
  lemma EmailRejected()
    ensures !ValidateEmail("example@example")
  {
    var t := "example@example";
    assert Occurrences(t, '.') == 0;
    if ValidateEmail(t) {
      var at: nat, dot: nat :| at < dot < |t| && EmailSplit(t, at, dot);
      OccurrencesPositive(t, '.', dot);
    }
  }

  // ---------------------------------------------------------------------------
  // validateKoreanPhoneNumber:
  // /^(01[016789]-\d{3,4}-\d{4}|02-\d{3,4}-\d{4}|0[3-9]\d{1}-\d{3,4}-\d{4})$/

  predicate IsDigit(c: char)
  {
    '0' <= c <= '9'
  }

  predicate AllDigits(s: string)
  {
    forall i :: 0 <= i < |s| ==> IsDigit(s[i])
  }

  /** `-\d{3,4}-\d{4}`: the part shared by the three alternatives. */
  predicate SubscriberTail(t: string)
  {
    (|t| == 9 || |t| == 10) && t[0] == '-' && AllDigits(t[1..|t| - 5]) &&
    t[|t| - 5] == '-' && AllDigits(t[|t| - 4..])
  }

  /** `01[016789]`: mobile prefixes. */
  predicate MobileNumber(s: string)
  {
    |s| >= 3 && s[0] == '0' && s[1] == '1' && s[2] in "016789" && SubscriberTail(s[3..])
  }

  /** `02`: the Seoul area code. */
  predicate SeoulNumber(s: string)
  {
    |s| >= 2 && s[0] == '0' && s[1] == '2' && SubscriberTail(s[2..])
  }

  /** `0[3-9]\d`: the other area codes. */
  predicate AreaNumber(s: string)
  {
    |s| >= 3 && s[0] == '0' && '3' <= s[1] <= '9' && IsDigit(s[2]) && SubscriberTail(s[3..])
  }

  /** validateKoreanPhoneNumber (src/middleware/validate.ts:9-13). */
  predicate ValidateKoreanPhoneNumber(s: string)
  {
    MobileNumber(s) || SeoulNumber(s) || AreaNumber(s)
  }

  /** The two separators are the only '-' in a subscriber tail. */
  lemma TailDashes(t: string)
    requires SubscriberTail(t)
    ensures Occurrences(t, '-') == 2
  {
    var mid := t[1..|t| - 5];
    var last := t[|t| - 4..];
    var front := [t[0]] + mid + [t[|t| - 5]];
    assert t == front + last;
    OccurrencesConcat(front, last, '-');
    OccurrencesConcat([t[0]] + mid, [t[|t| - 5]], '-');
    OccurrencesConcat([t[0]], mid, '-');
    OccurrencesNone(mid, '-');
    OccurrencesNone(last, '-');
  }

  lemma TailShape(t: string)
    requires SubscriberTail(t)
    ensures Occurrences(t, '-') == 2
    ensures forall i :: 0 <= i < |t| && t[i] != '-' ==> IsDigit(t[i])
  {
    TailDashes(t);
    var mid := t[1..|t| - 5];
    var last := t[|t| - 4..];
    forall i | 0 <= i < |t| && t[i] != '-'
      ensures IsDigit(t[i])
    {
      if i < |t| - 5 {
        assert t[i] == mid[i - 1];
      } else {
        assert t[i] == last[i - (|t| - 4)];
      }
    }
  }

  /** Length of the area or mobile prefix before the subscriber tail. */
  function PrefixLength(s: string): nat
  {
    if SeoulNumber(s) then 2 else 3
  }

  /** The prefix of an accepted number is all digits, starting with '0', and
      the rest is a subscriber tail. */
  lemma PhonePrefix(s: string)
    requires ValidateKoreanPhoneNumber(s)
    ensures PrefixLength(s) <= |s| && s[0] == '0'
    ensures SubscriberTail(s[PrefixLength(s)..])
    ensures forall i :: 0 <= i < PrefixLength(s) ==> IsDigit(s[i])
  {
    if !SeoulNumber(s) && MobileNumber(s) {
      assert s[2] in "016789";
    }
  }

  /** Every accepted number starts with '0', holds exactly two '-', has only
      digits elsewhere, and is 11 to 13 characters long. */
  lemma PhoneShape(s: string)
    requires ValidateKoreanPhoneNumber(s)
    ensures s[0] == '0'
    ensures Occurrences(s, '-') == 2
    ensures forall i :: 0 <= i < |s| && s[i] != '-' ==> IsDigit(s[i])
    ensures 11 <= |s| <= 13
  {
    PhonePrefix(s);
    var k := PrefixLength(s);
    var head := s[..k];
    var tail := s[k..];
    TailShape(tail);
    assert s == head + tail;
    OccurrencesConcat(head, tail, '-');
    assert forall i :: 0 <= i < |head| ==> head[i] != '-' by {
      forall i | 0 <= i < |head|
        ensures head[i] != '-'
      {
        assert head[i] == s[i];
      }
    }
    OccurrencesNone(head, '-');
    forall i | 0 <= i < |s| && s[i] != '-'
      ensures IsDigit(s[i])
    {
      if i >= k {
        assert s[i] == tail[i - k];
      }
    }
  }

  /** The three cases the source prints next to the definition
      (src/middleware/validate.ts:15-17). */
  lemma PhoneExamples()
    ensures ValidateKoreanPhoneNumber("010-1234-5678")
    ensures ValidateKoreanPhoneNumber("02-123-4567")
    ensures ValidateKoreanPhoneNumber("031-123-4567")
  {
    var m := "010-1234-5678";
    assert m[3..] == "-1234-5678";
    assert "-1234-5678"[1..5] == "1234" && "-1234-5678"[6..] == "5678";
    assert MobileNumber(m);
    var g := "02-123-4567";
    assert g[2..] == "-123-4567";
    assert "-123-4567"[1..4] == "123" && "-123-4567"[5..] == "4567";
    assert SeoulNumber(g);
    var a := "031-123-4567";
    assert a[3..] == "-123-4567";
    assert AreaNumber(a);
  }
}
