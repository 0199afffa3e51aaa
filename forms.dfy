/** What the sign-up and sign-in forms share: the phone and e-mail patterns restated on
    characters, the error map, and the resend countdown. */
module Forms {
  import opened Wrappers
  import opened Text
  import JsObject

  // ---------------------------------------------------------------------------
  // The phone pattern `^1[3-9]\d{9}$`
  // ---------------------------------------------------------------------------

  /** Eleven ASCII digits, the first `1` and the second between `3` and `9`. */
  predicate IsPhone(s: string)
  {
    |s| == 11 && s[0] == '1' && '3' <= s[1] <= '9' && forall i :: 2 <= i < 11 ==> IsDigit(s[i])
  }

  /** A character class of a regular expression. */
  datatype CharClass = Lit(c: char) | Range(lo: char, hi: char) | AnyDigit

  predicate Has(cc: CharClass, c: char)
  {
    match cc
    case Lit(x) => c == x
    case Range(lo, hi) => lo <= c <= hi
    case AnyDigit => IsDigit(c)
  }

  /** A class repeated an exact number of times (`[3-9]`, `\d{9}`). */
  datatype Repeat = Repeat(cls: CharClass, count: nat)

  /** An anchored pattern (`^...$`) made of exact repetitions matches all of `s`. */
  predicate MatchesExactly(pat: seq<Repeat>, s: string)
    decreases |pat|
  {
    if pat == [] then s == []
    else
      && |s| >= pat[0].count
      && (forall i :: 0 <= i < pat[0].count ==> Has(pat[0].cls, s[i]))
      && MatchesExactly(pat[1..], s[pat[0].count..])
  }

  /** `/^1[3-9]\d{9}$/`. */
  const PhonePattern: seq<Repeat> := [Repeat(Lit('1'), 1), Repeat(Range('3', '9'), 1), Repeat(AnyDigit, 9)]

  /** The character test is the regular expression, read literally. */
  lemma PhoneIsPattern(s: string)
    ensures IsPhone(s) <==> MatchesExactly(PhonePattern, s)
  {
    var p1, p2 := PhonePattern[1..], PhonePattern[2..];
    assert p1 == [Repeat(Range('3', '9'), 1), Repeat(AnyDigit, 9)];
    assert p1[1..] == p2 && p2[1..] == [];
    if |s| >= 2 {
      var t := s[2..];
      assert s[1..][1..] == t;
      assert MatchesExactly(p2, t) <==> |t| == 9 && forall i :: 0 <= i < 9 ==> IsDigit(t[i]) by {
        if |t| >= 9 {
          assert t[9..] == [] <==> |t| == 9;
        }
      }
      assert (forall i :: 2 <= i < 11 && |s| == 11 ==> IsDigit(s[i])) <==> (forall i :: 0 <= i < 9 && |t| == 9 ==> IsDigit(t[i]));
    }
  }

  /** A few numbers: a mobile number passes; a wrong second digit, a short number and
      a non-digit do not. */
  lemma PhoneExamples()
    ensures IsPhone("13812345678")
    ensures !IsPhone("12812345678")
    ensures !IsPhone("1381234567")
    ensures !IsPhone("1381234567a")
  {
    assert !IsDigit("1381234567a"[10]);
  }

  // ---------------------------------------------------------------------------
  // The e-mail pattern `\S+@\S+\.\S+`
  // ---------------------------------------------------------------------------

  /** `s[a..e]` holds no whitespace. */
  predicate NoSpace(s: string, a: int, e: int)
    requires 0 <= a <= e <= |s|
  {
    forall k :: a <= k < e ==> !IsSpace(s[k])
  }

  /** The pattern matches `s[a..e]`: a non-empty run, `@` at `p`, a non-empty run, `.` at
      `q`, a non-empty run, none of them containing whitespace. */
  predicate EmailMatchAt(s: string, a: int, p: int, q: int, e: int)
  {
    && 0 <= a < p && p + 1 < q && q + 1 < e <= |s|
    && s[p] == '@' && s[q] == '.'
    && NoSpace(s, a, p) && NoSpace(s, p + 1, q) && NoSpace(s, q + 1, e)
  }

  /** The shortest match: one character on each side of `@` and `.`. */
  predicate IsEmail(s: string)
  {
    exists p, q | 1 <= p && p + 1 < q && q + 1 < |s| :: s[p] == '@' && s[q] == '.' && NoSpace(s, p - 1, q + 2)
  }

  /** `/\S+@\S+\.\S+/.test(s)` (unanchored) holds exactly when `IsEmail(s)` does. */
  lemma EmailIsPattern(s: string)
    ensures IsEmail(s) <==> exists a, p, q, e :: EmailMatchAt(s, a, p, q, e)
  {
    if IsEmail(s) {
      var p, q :| 1 <= p && p + 1 < q && q + 1 < |s| && s[p] == '@' && s[q] == '.' && NoSpace(s, p - 1, q + 2);
      assert EmailMatchAt(s, p - 1, p, q, q + 2);
    }
    if exists a, p, q, e :: EmailMatchAt(s, a, p, q, e) {
      var a, p, q, e :| EmailMatchAt(s, a, p, q, e);
      assert NoSpace(s, p - 1, q + 2) by {
        forall k | p - 1 <= k < q + 2
          ensures !IsSpace(s[k])
        {
          if k == p || k == q {
          } else if k < p {
            assert a <= k < p;
          } else if k < q {
            assert p + 1 <= k < q;
          } else {
            assert q + 1 <= k < e;
          }
        }
      }
    }
  }

  /** Examples: an ordinary address matches, one with a space inside the match or with
      nothing after the dot does not. */
  lemma EmailExamples()
    ensures IsEmail("a@b.c")
    ensures !IsEmail("a@b.")
    ensures !IsEmail("a @b.c")
  {
    var good := "a@b.c";
    assert good[1] == '@' && good[3] == '.' && NoSpace(good, 0, 5);
    var spaced := "a @b.c";
    assert forall p :: 0 <= p < |spaced| && spaced[p] == '@' ==> p == 2;
    assert IsSpace(spaced[1]);
  }

  // ---------------------------------------------------------------------------
  // The error map and the countdown
  // ---------------------------------------------------------------------------

  /** `Record<string, string>` from field name to message, in insertion order. */
  type Errors = JsObject.Obj<string>

  /** `newErrors.key = msg` when the rule fails. */
  function PutIf(errors: Errors, fails: bool, key: string, msg: string): Errors
  {
    if fails then JsObject.Put(errors, key, msg) else errors
  }

  /** A failing rule records its message under its key and touches no other key; a
      passing rule changes nothing; the map grows only by a key it did not have. */
  lemma PutIfSpec(errors: Errors, fails: bool, key: string, msg: string)
    ensures var r := PutIf(errors, fails, key, msg);
            && (fails ==> JsObject.Get(r, key) == Some(msg))
            && (!fails ==> r == errors)
            && (forall k :: k != key ==> JsObject.Get(r, k) == JsObject.Get(errors, k))
            && |r.keys| == if fails && key !in errors.keys then |errors.keys| + 1 else |errors.keys|
  {
  }

  /** The seconds before the send-code button is enabled again. */
  const ResendSeconds: nat := 60

  /** One second of the countdown effect: a timer is set only while the count is
      positive, and each firing takes one off. */
  function Tick(countdown: nat): nat
  {
    if countdown > 0 then countdown - 1 else 0
  }

  /** The count after `n` seconds. */
  function AfterTicks(countdown: nat, n: nat): nat
  {
    if n == 0 then countdown else AfterTicks(Tick(countdown), n - 1)
  }

  /** The count goes down by one a second and stays at zero: `n` seconds take it to
      `countdown - n`, or to 0, and after a full send it is back to 0 in 60 seconds. */
  lemma {:induction false} AfterTicksSpec(countdown: nat, n: nat)
    ensures AfterTicks(countdown, n) == if n >= countdown then 0 else countdown - n
  {
    if n > 0 {
      AfterTicksSpec(Tick(countdown), n - 1);
    }
  }
}
