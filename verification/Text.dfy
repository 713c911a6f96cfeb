/** The string operations the key and envelope formats are built from: Python's `split`, the decimal
    rendering of an integer, and the `*` wildcard of a Redis SCAN pattern. */
module Text {

  predicate ColonFree(s: string) {
    ':' !in s
  }

  // The number of colons in s.
  function Colons(s: string): nat {
    if s == "" then 0 else (if s[0] == ':' then 1 else 0) + Colons(s[1..])
  }

  /** `s.split(":")`: never empty, and its parts hold no colon. */
  function Split(s: string): (parts: seq<string>)
    ensures |parts| == Colons(s) + 1
    ensures forall p | p in parts :: ColonFree(p)
  {
    if s == "" then [""]
    else
      var rest := Split(s[1..]);
      if s[0] == ':' then [""] + rest
      else
        assert forall p | p in rest :: ColonFree(p);
        assert ColonFree(rest[0]);
        [[s[0]] + rest[0]] + rest[1..]
  }

  /** The position of the first colon, or |s| when there is none. */
  function FirstColon(s: string): (i: nat)
    ensures i <= |s|
    ensures ColonFree(s[..i])
    ensures i < |s| ==> s[i] == ':'
  {
    if s == "" || s[0] == ':' then 0
    else
      var i := 1 + FirstColon(s[1..]);
      assert s[..i] == [s[0]] + s[1..][..i - 1];
      i
  }

  lemma {:induction false} ColonsConcat(a: string, b: string)
    ensures Colons(a + b) == Colons(a) + Colons(b)
  {
    if a == "" {
      assert a + b == b;
    } else {
      assert (a + b)[1..] == a[1..] + b;
      ColonsConcat(a[1..], b);
    }
  }

  lemma {:induction false} ColonFreeIffNoColons(s: string)
    ensures ColonFree(s) <==> Colons(s) == 0
  {
    if s == "" {
    } else {
      ColonFreeIffNoColons(s[1..]);
      assert s == [s[0]] + s[1..];
    }
  }

  /** Splitting undoes putting a colon after a colon-free part. */
  lemma {:induction false} SplitCons(a: string, b: string)
    requires ColonFree(a)
    ensures Split(a + ":" + b) == [a] + Split(b)
  {
    if a == "" {
      assert a + ":" + b == ":" + b;
      assert (":" + b)[1..] == b;
    } else {
      var s := a + ":" + b;
      assert s[1..] == a[1..] + ":" + b;
      SplitCons(a[1..], b);
      assert [s[0]] + a[1..] == a;
      assert Split(s) == [[s[0]] + a[1..]] + Split(b);
    }
  }

  /** And so it does putting a colon-free part after a colon. */
  lemma {:induction false} SplitSnoc(a: string, b: string)
    requires ColonFree(b)
    ensures Split(a + ":" + b) == Split(a) + [b]
  {
    if a == "" {
      assert a + ":" + b == ":" + b;
      assert (":" + b)[1..] == b;
      SplitColonFree(b);
    } else {
      var s := a + ":" + b;
      assert s[1..] == a[1..] + ":" + b;
      SplitSnoc(a[1..], b);
      var rest := Split(a[1..]);
      assert (rest + [b])[0] == rest[0] && (rest + [b])[1..] == rest[1..] + [b];
    }
  }

  lemma {:induction false} SplitColonFree(s: string)
    requires ColonFree(s)
    ensures Split(s) == [s]
  {
    if s == "" {
    } else {
      SplitColonFree(s[1..]);
      assert [s[0]] + s[1..] == s;
    }
  }

  // ----- decimal integers

  function Digit(d: nat): char
    requires d < 10
  {
    "0123456789"[d]
  }

  function DecimalNat(n: nat): (s: string)
    ensures |s| >= 1
    ensures ':' !in s && '-' !in s && '*' !in s
  {
    if n < 10 then [Digit(n)] else DecimalNat(n / 10) + [Digit(n % 10)]
  }

  /** `str(n)` and `%d`. */
  function Decimal(n: int): (s: string)
    ensures |s| >= 1
    ensures ColonFree(s) && '*' !in s
  {
    if n < 0 then "-" + DecimalNat(-n) else DecimalNat(n)
  }

  lemma {:induction false} DecimalNatInjective(m: nat, n: nat)
    requires DecimalNat(m) == DecimalNat(n)
    ensures m == n
  {
    var a, b := DecimalNat(m), DecimalNat(n);
    assert a[|a| - 1] == Digit(m % 10) && b[|b| - 1] == Digit(n % 10);
    assert m % 10 == n % 10;
    if m >= 10 && n >= 10 {
      assert a[..|a| - 1] == DecimalNat(m / 10) && b[..|b| - 1] == DecimalNat(n / 10);
      DecimalNatInjective(m / 10, n / 10);
    }
  }

  lemma MinusIffNegative(n: int)
    ensures Decimal(n)[0] == '-' <==> n < 0
  {
    if n >= 0 {
      assert DecimalNat(n)[0] in DecimalNat(n);
    }
  }

  // What a text of digits denotes, reading from the left.
  function Denoted(s: string): int {
    if s == "" then 0 else 10 * Denoted(s[..|s| - 1]) + (s[|s| - 1] as int - '0' as int)
  }

  /** A decimal denotes its number, in digits, and has no leading zero. */
  lemma {:induction false} DecimalDenotes(n: nat)
    ensures Denoted(DecimalNat(n)) == n
    ensures forall c | c in DecimalNat(n) :: '0' <= c <= '9'
    ensures DecimalNat(n)[0] == '0' <==> n == 0
  {
    assert Digit(n % 10) as int == '0' as int + n % 10;
    if n < 10 {
      assert Denoted("") == 0;
    } else {
      DecimalDenotes(n / 10);
      assert DecimalNat(n)[..|DecimalNat(n)| - 1] == DecimalNat(n / 10);
    }
  }

  lemma DecimalInjective(m: int, n: int)
    requires Decimal(m) == Decimal(n)
    ensures m == n
  {
    MinusIffNegative(m);
    MinusIffNegative(n);
    if m < 0 {
      assert Decimal(m)[1..] == DecimalNat(-m) && Decimal(n)[1..] == DecimalNat(-n);
      DecimalNatInjective(-m, -n);
    } else {
      DecimalNatInjective(m, n);
    }
  }

  // ----- wildcard patterns

  /** Redis pattern matching for patterns whose only special character is `*`. */
  predicate Matches(pattern: string, s: string)
    decreases |pattern|, |s|
  {
    if pattern == "" then s == ""
    else if pattern[0] == '*' then
      Matches(pattern[1..], s) || (s != "" && Matches(pattern, s[1..]))
    else s != "" && s[0] == pattern[0] && Matches(pattern[1..], s[1..])
  }

  lemma {:induction false} MatchesLiteral(lit: string, rest: string, s: string)
    requires '*' !in lit
    ensures Matches(lit + rest, s) <==> lit <= s && Matches(rest, s[|lit|..])
  {
    if lit == "" {
      assert lit + rest == rest;
    } else {
      assert (lit + rest)[1..] == lit[1..] + rest;
      if s != "" && s[0] == lit[0] {
        MatchesLiteral(lit[1..], rest, s[1..]);
        assert lit <= s <==> lit[1..] <= s[1..] by {
          assert lit == [lit[0]] + lit[1..] && s == [s[0]] + s[1..];
        }
        if lit <= s {
          assert s[1..][|lit| - 1..] == s[|lit|..];
        }
      }
    }
  }

  lemma {:induction false} MatchesStar(rest: string, s: string) returns (i: nat)
    requires Matches("*" + rest, s)
    ensures i <= |s| && Matches(rest, s[i..])
    decreases |s|
  {
    assert ("*" + rest)[1..] == rest;
    if Matches(rest, s) {
      i := 0;
    } else {
      var j := MatchesStar(rest, s[1..]);
      i := j + 1;
      assert s[1..][j..] == s[i..];
    }
  }

  lemma {:induction false} StarMatches(rest: string, s: string, i: nat)
    requires i <= |s| && Matches(rest, s[i..])
    ensures Matches("*" + rest, s)
  {
    assert ("*" + rest)[1..] == rest;
    if i == 0 {
    } else {
      assert s[1..][i - 1..] == s[i..];
      StarMatches(rest, s[1..], i - 1);
    }
  }

  /** A literal and a star match what can be cut into the literal, anything, and a rest that matches. */
  lemma CutAtStar(lit: string, rest: string, s: string) returns (x: string, t: string)
    requires '*' !in lit
    requires Matches(lit + ("*" + rest), s)
    ensures s == lit + x + t && Matches(rest, t)
  {
    MatchesLiteral(lit, "*" + rest, s);
    var i := MatchesStar(rest, s[|lit|..]);
    x, t := s[|lit|..][..i], s[|lit|..][i..];
  }

  lemma PasteAtStar(lit: string, rest: string, x: string, t: string)
    requires '*' !in lit
    requires Matches(rest, t)
    ensures Matches(lit + ("*" + rest), lit + x + t)
  {
    var s := lit + x + t;
    assert s[|lit|..] == x + t;
    assert (x + t)[|x|..] == t;
    StarMatches(rest, x + t, |x|);
    MatchesLiteral(lit, "*" + rest, s);
  }

  lemma MatchesItself(lit: string, s: string)
    requires '*' !in lit
    ensures Matches(lit, s) <==> s == lit
  {
    assert lit + "" == lit;
    MatchesLiteral(lit, "", s);
    assert lit <= s && s[|lit|..] == "" ==> s == lit;
    assert s == lit ==> s[|lit|..] == "";
  }

  /** What a pattern of the form pre*mid*post matches. */
  lemma TwoStars(pre: string, mid: string, post: string, s: string)
    requires '*' !in pre && '*' !in mid && '*' !in post
    ensures Matches(pre + ("*" + (mid + ("*" + post))), s) <==> exists x, y :: s == pre + x + (mid + y + post)
  {
    var inner := mid + ("*" + post);
    if Matches(pre + ("*" + inner), s) {
      var x, t := CutAtStar(pre, inner, s);
      var y, t2 := CutAtStar(mid, post, t);
      MatchesItself(post, t2);
      assert s == pre + x + (mid + y + post);
    }
    if x, y :| s == pre + x + (mid + y + post) {
      MatchesItself(post, post);
      PasteAtStar(mid, post, y, post);
      PasteAtStar(pre, inner, x, mid + y + post);
    }
  }
}
