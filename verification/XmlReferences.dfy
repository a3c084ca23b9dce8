// Numeric character references: whatever way a number is spelled, the reference stands for its low byte.
module XmlReferences {
  import opened Basics
  import opened XmlText

  const LOWER := "0123456789abcdef"
  const UPPER := "0123456789ABCDEF"

  // c is the digit d, in either case.
  ghost predicate IsDigit(c: char, d: nat, base: nat)
    requires base == 10 || base == 16
  {
    d < base && (c == LOWER[d] || c == UPPER[d])
  }

  // The digits t spell n in a base: the last one is the remainder, and those before it spell the quotient.  There may be zeros in
  // front.
  ghost predicate Spells(t: string, n: nat, base: nat)
    requires base == 10 || base == 16
  {
    && t != "" && IsDigit(t[|t| - 1], n % base, base)
    && if |t| == 1 then n < base else Spells(t[..|t| - 1], n / base, base)
  }

  // The shortest spelling in small letters.
  function Digits(n: nat, base: nat): (t: string)
    requires base == 10 || base == 16
    ensures Spells(t, n, base)
  {
    if n < base then [LOWER[n]]
    else
      var t := Digits(n / base, base) + [LOWER[n % base]];
      assert t[..|t| - 1] == Digits(n / base, base);
      t
  }

  function Base(mark: char): nat {
    if mark == 'x' then 16 else 10
  }

  lemma DigitValue(c: char, mark: char)
    requires mark == 'x' || mark == '#'
    ensures var d := if mark == 'x' then HexValue(c) else DecimalValue(c);
            forall v: nat :: d == Some(v) <==> IsDigit(c, v, Base(mark))
  {
    var d := if mark == 'x' then HexValue(c) else DecimalValue(c);
    forall v: nat ensures d == Some(v) <==> IsDigit(c, v, Base(mark)) {
      if v < Base(mark) { OneDigit(v); }
    }
  }

  lemma OneDigit(v: nat)
    requires v < 16
    ensures LOWER[v] == (if v < 10 then '0' + v as char else 'a' + (v - 10) as char)
    ensures UPPER[v] == (if v < 10 then '0' + v as char else 'A' + (v - 10) as char)
  {
  }

  lemma Unique(c: char, d: nat, e: nat, base: nat)
    requires (base == 10 || base == 16) && IsDigit(c, d, base) && IsDigit(c, e, base)
    ensures d == e
  {
    OneDigit(d);
    OneDigit(e);
  }

  // No digit is a mark or a semicolon.
  lemma DigitsOnly(c: char, d: nat, mark: char)
    requires (mark == 'x' || mark == '#') && IsDigit(c, d, Base(mark))
    ensures c != 'x' && c != '#' && c != ';'
  {
    OneDigit(d);
  }

  // Reading some digits without a mark gives a number if and only if they spell it.
  lemma {:induction false} NumberExact(t: string, mark: char, n: nat)
    requires (mark == 'x' || mark == '#') && t != "" && mark !in t
    ensures Number(t, mark) == Some(n) <==> Spells(t, n, Base(mark))
    decreases |t|
  {
    hide HexValue, DecimalValue, IsDigit;
    var c, u, base := t[|t| - 1], t[..|t| - 1], Base(mark);
    DigitValue(c, mark);
    var d := if mark == 'x' then HexValue(c) else DecimalValue(c);
    if u == "" {
      assert Number(u, mark) == Some(0);
      if d.Some? { InRange(c, d.value, base); }
    } else {
      NumberExact(u, mark, n / base);
      if d.Some? {
        InRange(c, d.value, base);
        if Number(u, mark).Some? { Divided(Number(u, mark).value, d.value, base); NumberExact(u, mark, Number(u, mark).value); }
      }
    }
  }

  lemma {:induction false} InRange(c: char, d: nat, base: nat)
    requires (base == 10 || base == 16) && IsDigit(c, d, base)
    ensures d < base && forall e: nat :: IsDigit(c, e, base) ==> e == d
  {
    forall e: nat | IsDigit(c, e, base) ensures e == d { Unique(c, d, e, base); }
  }

  lemma {:induction false} Divided(k: nat, d: nat, base: nat)
    requires (base == 10 || base == 16) && d < base
    ensures (k * base + d) / base == k && (k * base + d) % base == d
  {
    if base == 10 { assert (k * 10 + d) / 10 == k; } else { assert (k * 16 + d) / 16 == k; }
  }

  lemma {:induction false} NoMarks(t: string, n: nat, mark: char)
    requires (mark == 'x' || mark == '#') && Spells(t, n, Base(mark))
    ensures forall i | 0 <= i < |t| :: t[i] != mark && t[i] != ';' && t[i] != 'x'
    decreases |t|
  {
    hide IsDigit;
    DigitsOnly(t[|t| - 1], n % Base(mark), mark);
    if |t| > 1 {
      var u := t[..|t| - 1];
      NoMarks(u, n / Base(mark), mark);
      assert forall i | 0 <= i < |t| - 1 :: t[i] == u[i];
    }
  }

  // What a number stands for.
  function Meaning(n: Option<nat>, p: string): Option<(string, string)> {
    match n case None => None case Some(k) => Some(([(k % 256) as char], p))
  }

  // What a reference is read as hangs on what stands in front of its semicolon.
  lemma {:induction false} ReferenceAt(q: string, start: nat, mark: char, t: string, p: string)
    requires start < |q| && q[start..] == t + [';'] + p && forall i | 0 <= i < |t| :: t[i] != ';'
    ensures Reference(q, start, mark) == Meaning(Number(t, mark), p)
  {
    hide Number, Semicolon;
    SemicolonAt(t, p);
    var k := |t|;
    assert Semicolon(q[start..]) == Some(k);
    assert q[start..start + k] == t by { assert q[start..start + k] == q[start..][..k]; }
    assert q[start + k + 1..] == p by { assert q[start + k + 1..] == q[start..][k + 1..]; }
  }

  lemma {:induction false} ReferenceChosen(q: string)
    requires |q| > 3 && q[1] == '#'
    ensures GetEntity(q) == if q[2] == 'x' then Reference(q, 3, 'x') else Reference(q, 2, '#')
  {
    hide Reference, StartsWith;
  }

  lemma {:induction false} DecimalEntity(t: string, p: string)
    requires t != "" && t[0] != 'x' && forall i | 0 <= i < |t| :: t[i] != ';'
    ensures GetEntity("&#" + t + ";" + p) == Meaning(Number(t, '#'), p)
  {
    hide Number, Reference, GetEntity, Meaning;
    var q := "&#" + t + ";" + p;
    assert q[2..] == t + [';'] + p && q[2] == t[0] && q[1] == '#';
    ReferenceChosen(q);
    ReferenceAt(q, 2, '#', t, p);
  }

  lemma {:induction false} HexEntity(t: string, p: string)
    requires t != "" && forall i | 0 <= i < |t| :: t[i] != ';'
    ensures GetEntity("&#x" + t + ";" + p) == Meaning(Number(t, 'x'), p)
  {
    hide Number, Reference, GetEntity, Meaning;
    var q := "&#x" + t + ";" + p;
    assert q[3..] == t + [';'] + p && q[2] == 'x' && q[1] == '#';
    ReferenceChosen(q);
    ReferenceAt(q, 3, 'x', t, p);
  }

  // Any spelling of a number, in either base, with zeros in front or not, and in either case.
  lemma {:induction false} DecimalRead(t: string, n: nat, p: string)
    requires Spells(t, n, 10)
    ensures GetEntity("&#" + t + ";" + p) == Some(([(n % 256) as char], p))
  {
    hide Spells, Number, GetEntity;
    NoMarks(t, n, '#');
    SpelledSome(t, n, 10);
    NumberExact(t, '#', n);
    DecimalEntity(t, p);
  }

  lemma {:induction false} HexRead(t: string, n: nat, p: string)
    requires Spells(t, n, 16)
    ensures GetEntity("&#x" + t + ";" + p) == Some(([(n % 256) as char], p))
  {
    hide Spells, Number, GetEntity;
    NoMarks(t, n, 'x');
    SpelledSome(t, n, 16);
    NumberExact(t, 'x', n);
    HexEntity(t, p);
  }

  lemma SpelledSome(t: string, n: nat, base: nat)
    requires (base == 10 || base == 16) && Spells(t, n, base)
    ensures t != ""
  {
  }

  // A reference with no mark in its digits is read if and only if they spell a number.
  lemma {:induction false} DecimalExact(t: string, p: string)
    requires t != "" && t[0] != 'x' && forall i | 0 <= i < |t| :: t[i] != '#' && t[i] != ';'
    ensures GetEntity("&#" + t + ";" + p).Some? <==> exists n: nat :: Spells(t, n, 10)
  {
    hide Spells, Number, GetEntity;
    DecimalEntity(t, p);
    Spelled(t, '#');
    assert Base('#') == 10;
  }

  lemma {:induction false} HexExact(t: string, p: string)
    requires t != "" && forall i | 0 <= i < |t| :: t[i] != 'x' && t[i] != ';'
    ensures GetEntity("&#x" + t + ";" + p).Some? <==> exists n: nat :: Spells(t, n, 16)
  {
    hide Spells, Number, GetEntity;
    HexEntity(t, p);
    Spelled(t, 'x');
    assert Base('x') == 16;
  }

  lemma {:induction false} Spelled(t: string, mark: char)
    requires (mark == 'x' || mark == '#') && t != "" && mark !in t
    ensures Number(t, mark).Some? <==> exists n: nat :: Spells(t, n, Base(mark))
  {
    hide Spells, Number;
    if n: nat :| Spells(t, n, Base(mark)) { NumberExact(t, mark, n); }
    if Number(t, mark).Some? { NumberExact(t, mark, Number(t, mark).value); }
  }
}
