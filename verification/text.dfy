/**
 Strings as the ledger's storage sees them: SQLite's default BINARY collation
 (code-point order, a proper prefix sorts first), prefix tests, and the
 fixed-width zero-padded decimal fields that strftime writes.
 */
module Text {

  /** An optional value: a missing JSON key, an absent table row, a SQL NULL. */
  datatype Option<+T> = None | Some(value: T)

  /** `a <= b` under SQLite's BINARY collation (memcmp of UTF-8, which orders
      like code points; a proper prefix sorts first). */
  predicate StrLe(a: string, b: string)
    decreases |a|
  {
    |a| == 0 || (|b| > 0 && (a[0] < b[0] || (a[0] == b[0] && StrLe(a[1..], b[1..]))))
  }

  /** BINARY collation is a total order in which a proper prefix sorts first. */
  lemma {:induction false} StrLeOrder(a: string, b: string)
    ensures StrLe(a, b) || StrLe(b, a)
    ensures StrLe(a, b) && StrLe(b, a) ==> a == b
    ensures StartsWith(b, a) ==> StrLe(a, b)
    decreases |a|
  {
    if |a| > 0 && |b| > 0 {
      StrLeOrder(a[1..], b[1..]);
      if a[0] == b[0] && a[1..] == b[1..] {
        assert a == [a[0]] + a[1..] && b == [b[0]] + b[1..];
      }
      if StartsWith(b, a) {
        assert b[..|a|][0] == a[0] && b[1..][..|a| - 1] == a[1..];
      }
    }
  }

  /** BINARY collation is transitive. */
  lemma {:induction false} StrLeTrans(a: string, b: string, c: string)
    requires StrLe(a, b) && StrLe(b, c)
    ensures StrLe(a, c)
    decreases |a|
  {
    if |a| > 0 && a[0] == b[0] && b[0] == c[0] {
      StrLeTrans(a[1..], b[1..], c[1..]);
    }
  }

  predicate StartsWith(s: string, prefix: string)
  {
    |prefix| <= |s| && s[..|prefix|] == prefix
  }

  predicate IsDigit(c: char)
  {
    '0' <= c <= '9'
  }

  predicate AllDigits(s: string)
  {
    forall i :: 0 <= i < |s| ==> IsDigit(s[i])
  }

  function DigitValue(c: char): (v: int)
    requires IsDigit(c)
    ensures 0 <= v < 10
  {
    c as int - '0' as int
  }

  function Digit(k: int): (c: char)
    requires 0 <= k < 10
    ensures IsDigit(c) && DigitValue(c) == k
  {
    ('0' as int + k) as char
  }

  function Pow10(n: nat): (p: nat)
    ensures p >= 1
  {
    if n == 0 then 1 else 10 * Pow10(n - 1)
  }

  /** The value of a string of decimal digits, most significant first. */
  function Val(s: string): (v: nat)
    requires AllDigits(s)
    ensures v < Pow10(|s|)
  {
    if |s| == 0 then 0 else Val(s[..|s| - 1]) * 10 + DigitValue(s[|s| - 1])
  }

  /** The last `n` decimal digits of `x`, zero-padded: strftime's `%04d` and `%02d`. */
  function Pad(x: nat, n: nat): (s: string)
    ensures |s| == n && AllDigits(s)
  {
    if n == 0 then [] else Pad(x / 10, n - 1) + [Digit(x % 10)]
  }

  /** Reading back a zero-padded field gives the number that was written. */
  lemma {:induction false} ValPad(x: nat, n: nat)
    requires x < Pow10(n)
    ensures Val(Pad(x, n)) == x
  {
    if n > 0 {
      var s := Pad(x, n);
      assert s[..n - 1] == Pad(x / 10, n - 1);
      ValPad(x / 10, n - 1);
    }
  }

  lemma PadInjective(x: nat, y: nat, n: nat)
    requires x < Pow10(n) && y < Pow10(n)
    ensures Pad(x, n) == Pad(y, n) <==> x == y
  {
    ValPad(x, n);
    ValPad(y, n);
  }

  lemma Pad2(x: nat)
    requires x < 100
    ensures Pad(x, 2) == [Digit(x / 10), Digit(x % 10)]
  {
    assert Pad(x / 10, 1) == [Digit(x / 10)];
  }

  /** Comparing two equally long heads decides the order unless they are equal. */
  lemma {:induction false} StrLeConcat(a: string, b: string, c: string, d: string)
    requires |a| == |b|
    ensures StrLe(a + c, b + d) <==> (a == b && StrLe(c, d)) || (a != b && StrLe(a, b))
    decreases |a|
  {
    if |a| > 0 {
      assert (a + c)[0] == a[0] && (a + c)[1..] == a[1..] + c;
      assert (b + d)[0] == b[0] && (b + d)[1..] == b[1..] + d;
      StrLeConcat(a[1..], b[1..], c, d);
      assert a == b <==> a[0] == b[0] && a[1..] == b[1..] by {
        if a[0] == b[0] && a[1..] == b[1..] {
          assert a == [a[0]] + a[1..] && b == [b[0]] + b[1..];
        }
      }
    } else {
      assert a == b;
      assert a + c == c && b + d == d;
    }
  }

  /** On equally wide zero-padded fields the string order is the numeric order. */
  lemma {:induction false} PadOrder(x: nat, y: nat, n: nat)
    requires x < Pow10(n) && y < Pow10(n)
    ensures StrLe(Pad(x, n), Pad(y, n)) <==> x <= y
  {
    if n > 0 {
      var hx, hy := Pad(x / 10, n - 1), Pad(y / 10, n - 1);
      var cx, cy := Digit(x % 10), Digit(y % 10);
      StrLeConcat(hx, hy, [cx], [cy]);
      PadOrder(x / 10, y / 10, n - 1);
      PadInjective(x / 10, y / 10, n - 1);
      assert StrLe([cx], [cy]) <==> x % 10 <= y % 10 by {
        assert [cx][1..] == [] && [cy][1..] == [];
      }
    }
  }
}
