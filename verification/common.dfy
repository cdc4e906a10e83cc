/** Optional and fallible values, used where the source has `undefined` or raises. */
module Wrappers {
  datatype Option<+T> = None | Some(value: T)

  datatype Result<+R, +E> = Success(value: R) | Failure(error: E)
}

/** Order-preserving sub-sequences, the shape of `Array.prototype.filter` and of grouping. */
module Seqs {
  /** `sub` can be obtained from `s` by deleting elements, keeping the rest in order. */
  predicate IsSubsequence<T(==)>(sub: seq<T>, s: seq<T>)
    decreases |s|
  {
    if sub == [] then true
    else if s == [] then false
    else if sub[0] == s[0] then IsSubsequence(sub[1..], s[1..])
    else IsSubsequence(sub, s[1..])
  }

  lemma {:induction false} EmptyIsSubsequence<T>(s: seq<T>)
    ensures IsSubsequence([], s)
  {
  }

  /** Keeping or dropping the last element of `s` preserves the sub-sequence relation. */
  lemma {:induction false} SubsequenceSnoc<T>(sub: seq<T>, s: seq<T>, x: T, keep: bool)
    requires IsSubsequence(sub, s)
    ensures IsSubsequence(if keep then sub + [x] else sub, s + [x])
    decreases |s|
  {
    if s == [] {
      if keep {
        assert sub == [];
        assert ([] + [x])[1..] == [];
      }
    } else if sub == [] {
      if keep {
        SubsequenceSnoc(sub, s[1..], x, keep);
        assert (s + [x])[1..] == s[1..] + [x];
        if sub + [x] != [] && (sub + [x])[0] == (s + [x])[0] {
          assert [x][0] == s[0];
          assert (sub + [x])[1..] == [];
          EmptyIsSubsequence((s + [x])[1..]);
        }
      }
    } else {
      assert (s + [x])[1..] == s[1..] + [x];
      var sub' := if keep then sub + [x] else sub;
      assert sub'[0] == sub[0];
      if sub[0] == s[0] {
        SubsequenceSnoc(sub[1..], s[1..], x, keep);
        assert sub'[1..] == if keep then sub[1..] + [x] else sub[1..];
      } else {
        SubsequenceSnoc(sub, s[1..], x, keep);
      }
    }
  }
}

/**
 * Decimal text of integers: `Number.prototype.toString()` on the client and
 * the integer parsing a query parameter undergoes on the server.
 */
module Decimal {
  import opened Wrappers

  predicate IsDigit(c: char) { '0' <= c <= '9' }

  predicate AllDigits(s: string) { forall i :: 0 <= i < |s| ==> IsDigit(s[i]) }

  function DigitChar(d: nat): (c: char)
    requires d < 10
    ensures IsDigit(c) && c as int - '0' as int == d
  {
    ('0' as int + d) as char
  }

  /** Base-10 text of `n`, without leading zeros. */
  function NatToString(n: nat): (s: string)
    ensures |s| >= 1 && AllDigits(s)
    ensures s[0] == '0' ==> n == 0
    ensures n < 10 <==> |s| == 1
    decreases n
  {
    if n < 10 then [DigitChar(n)] else NatToString(n / 10) + [DigitChar(n % 10)]
  }

  /** What JavaScript's `toString()` gives for a safe integer (magnitude at most 2^53). */
  function IntToString(n: int): (s: string)
    ensures |s| >= 1
    ensures n >= 0 <==> s[0] != '-'
  {
    if n < 0 then "-" + NatToString(-n) else NatToString(n)
  }

  /** Value of a non-empty run of decimal digits (leading zeros allowed). */
  function DigitsValue(s: string): nat
    requires |s| >= 1 && AllDigits(s)
    decreases |s|
  {
    var last := s[|s| - 1] as int - '0' as int;
    if |s| == 1 then last else DigitsValue(s[..|s| - 1]) * 10 + last
  }

  /** Integer parsing of a query value: optional '-' followed by decimal digits. */
  function ParseInt(s: string): (r: Option<int>)
    ensures r.Some? ==> |s| >= 1 && (r.value < 0 ==> s[0] == '-')
    ensures r.Some? && s[0] != '-' ==> AllDigits(s)
  {
    if |s| >= 1 && AllDigits(s) then Some(DigitsValue(s))
    else if |s| >= 2 && s[0] == '-' && AllDigits(s[1..]) then Some(0 - DigitsValue(s[1..]) as int)
    else None
  }

  lemma {:induction false} DigitsOfNatToString(n: nat)
    ensures DigitsValue(NatToString(n)) == n
    decreases n
  {
    if n >= 10 {
      var s := NatToString(n);
      assert s[..|s| - 1] == NatToString(n / 10);
      DigitsOfNatToString(n / 10);
    }
  }

  /** Text written by the client is read back as the same integer by the server. */
  lemma ParseIntToString(n: int)
    ensures ParseInt(IntToString(n)) == Some(n)
  {
    if n < 0 {
      var t := NatToString(-n);
      var s := "-" + t;
      assert s == IntToString(n);
      assert s[1..] == t;
      assert !AllDigits(s) by { assert !IsDigit(s[0]); }
      DigitsOfNatToString(-n);
    } else {
      DigitsOfNatToString(n);
    }
  }
}
