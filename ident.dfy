/**
 * The synthetic-name counter of the macro crate (`IdentGen`): names are the
 * reserved prefix `deref_pat_` followed by the decimal form of a `u64`
 * counter, which `reset` zeroes and `next` advances by one.
 */
module Idents {
  import opened Syntax

  /** `IdentGen::PREFIX`. */
  const PREFIX: string := "deref_pat_"

  /** `u64::MAX`: `count += 1` overflows (and panics) when `count` is this. */
  const U64_MAX: nat := 0xFFFF_FFFF_FFFF_FFFF

  predicate IsDigit(c: char) {
    '0' <= c <= '9'
  }

  predicate AllDigits(s: string) {
    forall i :: 0 <= i < |s| ==> IsDigit(s[i])
  }

  function DigitChar(d: nat): (c: char)
    requires d < 10
    ensures IsDigit(c) && c as int - '0' as int == d
  {
    (d + '0' as int) as char
  }

  /** `u64::to_string`: the decimal digits of `n`, most significant first, no leading zero. */
  function Decimal(n: nat): (s: string)
    ensures |s| >= 1 && AllDigits(s)
    ensures s[0] == '0' ==> s == "0"
  {
    if n < 10 then [DigitChar(n)] else Decimal(n / 10) + [DigitChar(n % 10)]
  }

  /** The value a string of decimal digits denotes; the partner of `Decimal`. */
  function DecimalValue(s: string): nat
    requires AllDigits(s)
  {
    if s == [] then 0
    else DecimalValue(s[..|s| - 1]) * 10 + (s[|s| - 1] as int - '0' as int)
  }

  lemma {:induction false} DecimalRoundTrip(n: nat)
    ensures DecimalValue(Decimal(n)) == n
  {
    if n >= 10 {
      DecimalRoundTrip(n / 10);
      var s := Decimal(n);
      assert s[..|s| - 1] == Decimal(n / 10);
    }
  }

  lemma DecimalInjective(m: nat, n: nat)
    requires Decimal(m) == Decimal(n)
    ensures m == n
  {
    DecimalRoundTrip(m);
    DecimalRoundTrip(n);
  }

  /** `IdentGen::prefix`: the reserved prefix followed by `s`. */
  function Prefix(s: string): (r: Ident)
    ensures |r| == |PREFIX| + |s|
    ensures r[..|PREFIX|] == PREFIX && r[|PREFIX|..] == s
  {
    PREFIX + s
  }

  /** The name `next` returns when the counter holds `k`: `deref_pat_k`. */
  function Name(k: nat): Ident {
    Prefix(Decimal(k))
  }

  lemma NameInjective(i: nat, j: nat)
    requires Name(i) == Name(j)
    ensures i == j
  {
    assert Decimal(i) == Name(i)[|PREFIX|..];
    assert Decimal(j) == Name(j)[|PREFIX|..];
    DecimalInjective(i, j);
  }

  /** The names `next` hands out from counter value `from` on, `n` calls in a row. */
  function NameRun(from: nat, n: nat): (r: seq<Ident>)
    ensures |r| == n
    ensures forall i :: 0 <= i < n ==> r[i] == Name(from + i)
  {
    seq(n, i requires 0 <= i => Name(from + i))
  }

  lemma NameRunDistinct(from: nat, n: nat)
    ensures forall i, j :: 0 <= i < j < n ==> NameRun(from, n)[i] != NameRun(from, n)[j]
  {
    forall i, j | 0 <= i < j < n
      ensures NameRun(from, n)[i] != NameRun(from, n)[j]
    {
      if NameRun(from, n)[i] == NameRun(from, n)[j] {
        NameInjective(from + i, from + j);
      }
    }
  }

  /** `IdentGen`: the counter that names synthetic bindings. */
  class IdentGen {
    var count: nat

    /** `#[derive(Default)]`. */
    constructor ()
      ensures count == 0
    {
      count := 0;
    }

    /** `reset`: zero the counter. */
    method Reset()
      modifies this
      ensures count == 0
    {
      count := 0;
    }

    /** `next`: the name for the current counter value; the counter then moves on by one. */
    method Next() returns (id: Ident)
      requires count < U64_MAX
      modifies this
      ensures id == Prefix(Decimal(old(count))) && id == Name(old(count))
      ensures count == old(count) + 1
    {
      id := Prefix(Decimal(count));
      count := count + 1;
    }

    /** `n` calls of `next` in a row, as a walk makes one per `#[deref]` field it rewrites. */
    method NextRun(n: nat) returns (names: seq<Ident>)
      requires count + n <= U64_MAX
      modifies this
      ensures names == NameRun(old(count), n)
      ensures count == old(count) + n
    {
      names := [];
      var i := 0;
      while i < n
        invariant 0 <= i <= n
        invariant count == old(count) + i
        invariant names == NameRun(old(count), i)
      {
        var id := Next();
        names := names + [id];
        i := i + 1;
      }
    }
  }
}
