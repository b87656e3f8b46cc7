/** Shared vocabulary: optional values, time, and the ordinal string tests the core uses. */
module Prelude {

  /** A nullable value (`T?` in the source). */
  datatype Option<T> = None | Some(value: T) {
    /** `x ?? default` */
    function GetOr(default: T): T {
      if Some? then value else default
    }
  }

  /** Instants are whole minutes since an arbitrary epoch; durations in days are converted with MinutesPerDay. */
  type Time = nat

  const MinutesPerDay: int := 1440

  /** `UtcNow.AddDays(-days)`: the instant `days` whole days before `now`. */
  function Cutoff(now: Time, days: int): int {
    now - days * MinutesPerDay
  }

  /** Lower-case mapping of one character (the ASCII range only). */
  function LowerChar(c: char): char {
    if 'A' <= c <= 'Z' then (c as int + 32) as char else c
  }

  /** `s.ToLower()`, which lower-cases under the current culture, modelled on the ASCII letters only. */
  function Lower(s: string): (r: string)
    ensures |r| == |s|
    ensures forall i :: 0 <= i < |s| ==> r[i] == LowerChar(s[i])
  {
    if s == [] then [] else [LowerChar(s[0])] + Lower(s[1..])
  }

  /** Lower-casing twice is lower-casing once. */
  lemma LowerIdempotent(s: string)
    ensures Lower(Lower(s)) == Lower(s)
  {
    assert forall i :: 0 <= i < |s| ==> LowerChar(LowerChar(s[i])) == LowerChar(s[i]);
  }

  /** Lower-casing works character by character, so it distributes over concatenation. */
  lemma LowerAppend(a: string, b: string)
    ensures Lower(a + b) == Lower(a) + Lower(b)
  {
    assert forall i :: 0 <= i < |a + b| ==> Lower(a + b)[i] == (Lower(a) + Lower(b))[i];
  }

  /**
   * `s.StartsWith(prefix)` as an ordinal prefix test. The .NET call without a StringComparison
   * compares under the current culture, which this test does not model.
   */
  predicate StartsWith(s: string, prefix: string) {
    prefix <= s
  }

  /** `s.Contains(sub)` with ordinal comparison: `sub` occurs somewhere in `s`. */
  predicate Contains(s: string, sub: string)
    decreases |s|
  {
    sub <= s || (s != [] && Contains(s[1..], sub))
  }

  /** `s.Contains(sub, StringComparison.OrdinalIgnoreCase)`. */
  predicate ContainsIgnoreCase(s: string, sub: string) {
    Contains(Lower(s), Lower(sub))
  }

  /** Contains means an occurrence at some offset, and every occurrence is found. */
  lemma {:induction false} ContainsAt(s: string, sub: string, i: nat)
    requires i + |sub| <= |s| && s[i..i + |sub|] == sub
    ensures Contains(s, sub)
    decreases i
  {
    if i > 0 {
      assert s[1..][i - 1..i - 1 + |sub|] == s[i..i + |sub|];
      ContainsAt(s[1..], sub, i - 1);
    } else {
      assert sub <= s;
    }
  }

  /** `sub` occurs in `s` at some offset: the reference meaning of Contains. */
  ghost predicate Occurs(s: string, sub: string) {
    exists i :: 0 <= i && OccursAt(s, sub, i)
  }

  /** `sub` occurs in `s` at offset `i`. */
  predicate OccursAt(s: string, sub: string, i: nat) {
    i + |sub| <= |s| && s[i..i + |sub|] == sub
  }

  /** Contains finds exactly the occurrences. */
  lemma {:induction false} ContainsIffOccurs(s: string, sub: string)
    ensures Contains(s, sub) <==> Occurs(s, sub)
    decreases |s|
  {
    if Contains(s, sub) {
      if sub <= s {
        assert OccursAt(s, sub, 0);
      } else {
        ContainsIffOccurs(s[1..], sub);
        var i :| 0 <= i && OccursAt(s[1..], sub, i);
        assert s[i + 1..i + 1 + |sub|] == s[1..][i..i + |sub|];
        assert OccursAt(s, sub, i + 1);
      }
    }
    if Occurs(s, sub) {
      var i :| 0 <= i && OccursAt(s, sub, i);
      ContainsAt(s, sub, i);
    }
  }

  /** Every string contains the empty string, so an empty keyword matches everything. */
  lemma EmptyIsContained(s: string)
    ensures Contains(s, "")
  {
  }

  /** Contains is preserved when text is added on either side. */
  lemma {:induction false} ContainsInfix(a: string, s: string, b: string, sub: string)
    requires Contains(s, sub)
    ensures Contains(a + s + b, sub)
    decreases |a|, |s|
  {
    if a != [] {
      assert (a + s + b)[1..] == a[1..] + s + b;
      ContainsInfix(a[1..], s, b, sub);
    } else if sub <= s {
      assert (a + s + b)[..|sub|] == s[..|sub|];
    } else {
      assert (s + b)[1..] == s[1..] + b;
      ContainsInfix([], s[1..], b, sub);
      assert [] + s[1..] + b == (a + s + b)[1..];
    }
  }
}
