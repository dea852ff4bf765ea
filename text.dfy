/**
 * Text helpers used by the request handlers: Python's `str.strip()`, the
 * substring test that `LIKE '%q%'` performs, and the decimal renderings
 * `str(n)` and `f"{n:02d}"` used to build the calendar's query parameters.
 */
module Text {

  /** Python's `str.isspace()` on one character: the characters `str.strip()` removes. */
  predicate IsSpace(c: char) {
    || ('\t' <= c <= '\r')
    || ('\U{1C}' <= c <= ' ')
    || c == '\U{85}' || c == '\U{A0}' || c == '\U{1680}'
    || ('\U{2000}' <= c <= '\U{200A}')
    || c == '\U{2028}' || c == '\U{2029}' || c == '\U{202F}' || c == '\U{205F}' || c == '\U{3000}'
  }

  predicate AllSpace(s: string) {
    forall i :: 0 <= i < |s| ==> IsSpace(s[i])
  }

  /** True when `s` neither starts nor ends with whitespace. */
  predicate Trimmed(s: string) {
    s == [] || (!IsSpace(s[0]) && !IsSpace(s[|s| - 1]))
  }

  /** `s` without its leading whitespace. */
  function TrimStart(s: string): (r: string)
    ensures |r| <= |s|
    ensures AllSpace(s[..|s| - |r|])
    ensures r == [] || !IsSpace(r[0])
  {
    if s != [] && IsSpace(s[0]) then
      var t := s[1..];
      var r := TrimStart(t);
      var lead := s[..|s| - |r|];
      forall i | 0 <= i < |lead| ensures IsSpace(lead[i]) {
        if i > 0 {
          assert lead[i] == t[..|t| - |r|][i - 1];
        }
      }
      r
    else s
  }

  /** `s` without its trailing whitespace. */
  function TrimEnd(s: string): (r: string)
    ensures |r| <= |s|
    ensures AllSpace(s[|r|..])
    ensures r == [] || !IsSpace(r[|r| - 1])
  {
    if s != [] && IsSpace(s[|s| - 1]) then
      var t := s[..|s| - 1];
      var r := TrimEnd(t);
      var trail := s[|r|..];
      forall i | 0 <= i < |trail| ensures IsSpace(trail[i]) {
        if |r| + i < |t| {
          assert trail[i] == t[|r|..][i];
        }
      }
      r
    else s
  }

  /** Python's `s.strip()`: `s` cut down to the part between its leading and trailing whitespace. */
  function Strip(s: string): (r: string)
    ensures Trimmed(r)
    ensures |r| <= |s|
  {
    var t := TrimStart(s);
    TrimEndPrefix(t);
    TrimEnd(t)
  }

  /** `TrimStart` keeps a suffix of its argument. */
  lemma {:induction false} TrimStartSuffix(s: string)
    ensures TrimStart(s) == s[|s| - |TrimStart(s)|..]
  {
    if s != [] && IsSpace(s[0]) {
      TrimStartSuffix(s[1..]);
      assert s[1..][|s[1..]| - |TrimStart(s[1..])|..] == s[|s| - |TrimStart(s)|..];
    }
  }

  /** `TrimEnd` keeps a prefix of its argument. */
  lemma {:induction false} TrimEndPrefix(s: string)
    ensures TrimEnd(s) == s[..|TrimEnd(s)|]
  {
    if s != [] && IsSpace(s[|s| - 1]) {
      TrimEndPrefix(s[..|s| - 1]);
      assert s[..|s| - 1][..|TrimEnd(s)|] == s[..|TrimEnd(s)|];
    }
  }

  /** The whitespace `Strip` removes from the front of `s`. */
  function LeadingSpace(s: string): string {
    s[..|s| - |TrimStart(s)|]
  }

  /** The whitespace `Strip` removes from the back of `s`. */
  function TrailingSpace(s: string): string {
    var t := TrimStart(s);
    t[|TrimEnd(t)|..]
  }

  /** What `Strip` removes is whitespace: `s` is its result with that whitespace around it. */
  lemma StripRemovesOnlySpace(s: string)
    ensures AllSpace(LeadingSpace(s)) && AllSpace(TrailingSpace(s))
    ensures s == LeadingSpace(s) + Strip(s) + TrailingSpace(s)
  {
    var t := TrimStart(s);
    LeadingSplit(s);
    TrailingSplit(t);
    assert Strip(s) == TrimEnd(t);
    assert TrailingSpace(s) == t[|TrimEnd(t)|..];
  }

  lemma LeadingSplit(s: string)
    ensures s == LeadingSpace(s) + TrimStart(s)
  {
    var n := |s| - |TrimStart(s)|;
    TrimStartSuffix(s);
    assert s == s[..n] + s[n..];
  }

  lemma TrailingSplit(t: string)
    ensures t == TrimEnd(t) + t[|TrimEnd(t)|..]
  {
    TrimEndPrefix(t);
    assert t == t[..|TrimEnd(t)|] + t[|TrimEnd(t)|..];
  }

  /** Whitespace around a trimmed core is exactly what `Strip` takes away. */
  lemma {:induction false} StripPadded(lead: string, core: string, trail: string)
    requires AllSpace(lead) && AllSpace(trail) && Trimmed(core)
    ensures Strip(lead + core + trail) == core
  {
    TrimStartPadded(lead, core + trail, core == []);
    if core == [] {
      assert core + trail == trail;
      assert lead + core + trail == lead + trail;
    } else {
      assert (lead + core + trail) == lead + (core + trail);
      assert TrimStart(lead + core + trail) == core + trail;
      TrimEndPadded(core, trail);
    }
  }

  lemma {:induction false} TrimStartPadded(lead: string, rest: string, restSpace: bool)
    requires AllSpace(lead)
    requires restSpace ==> AllSpace(rest)
    requires !restSpace ==> rest != [] && !IsSpace(rest[0])
    ensures TrimStart(lead + rest) == if restSpace then [] else rest
    decreases |rest|, |lead|
  {
    if lead == [] {
      assert lead + rest == rest;
      if restSpace && rest != [] {
        TrimStartPadded([rest[0]], rest[1..], true);
        assert [rest[0]] + rest[1..] == rest;
      }
    } else {
      assert (lead + rest)[1..] == lead[1..] + rest;
      TrimStartPadded(lead[1..], rest, restSpace);
    }
  }

  lemma {:induction false} TrimEndPadded(core: string, trail: string)
    requires AllSpace(trail) && core != [] && !IsSpace(core[|core| - 1])
    ensures TrimEnd(core + trail) == core
  {
    if trail == [] {
      assert core + trail == core;
    } else {
      var s := core + trail;
      assert s[..|s| - 1] == core + trail[..|trail| - 1];
      TrimEndPadded(core, trail[..|trail| - 1]);
    }
  }

  /** Stripping twice is stripping once. */
  lemma StripIdempotent(s: string)
    ensures Strip(Strip(s)) == Strip(s)
  {
    var r := Strip(s);
    assert [] + r + [] == r;
    StripPadded([], r, []);
  }

  /** The stripped text is empty exactly when `s` is all whitespace (the blank task title). */
  lemma StripEmptyIff(s: string)
    ensures Strip(s) == [] <==> AllSpace(s)
  {
    if !AllSpace(s) {
      StripRemovesOnlySpace(s);
    } else {
      assert s + [] + [] == s;
      StripPadded(s, [], []);
    }
  }

  /** `LIKE '%q%'` read as plain substring containment: `q` occurs somewhere in `s`. */
  predicate Contains(s: string, q: string) {
    exists i | 0 <= i <= |s| :: OccursAt(s, q, i)
  }

  /** `q` occurs in `s` starting at position `i`. */
  predicate OccursAt(s: string, q: string, i: int) {
    0 <= i <= |s| - |q| && s[i..i + |q|] == q
  }

  function DigitChar(d: int): char
    requires 0 <= d < 10
  {
    ('0' as int + d) as char
  }

  predicate IsDigits(s: string) {
    forall i :: 0 <= i < |s| ==> '0' <= s[i] <= '9'
  }

  /** The decimal digits of `n`, without leading zeros. */
  function NatText(n: nat): (r: string)
    ensures |r| >= 1 && IsDigits(r)
    ensures (r[0] == '0') == (n == 0)
  {
    if n < 10 then [DigitChar(n)] else NatText(n / 10) + [DigitChar(n % 10)]
  }

  /** The number a string of decimal digits denotes. */
  function DigitsValue(s: string): nat
    requires IsDigits(s)
  {
    if s == [] then 0 else DigitsValue(s[..|s| - 1]) * 10 + (s[|s| - 1] as int - '0' as int)
  }

  /** Reading back the digits of `n` gives `n`. */
  lemma {:induction false} NatTextRoundTrip(n: nat)
    ensures DigitsValue(NatText(n)) == n
  {
    if n >= 10 {
      var s := NatText(n);
      assert s[..|s| - 1] == NatText(n / 10);
      NatTextRoundTrip(n / 10);
    }
  }

  /** Python's `str(n)` for an integer. */
  function IntText(n: int): string {
    if n < 0 then "-" + NatText(-n) else NatText(n)
  }

  /** Python's `f"{n:02d}"`: at least two characters, zero-padded after any sign. */
  function ZeroPad2(n: int): string {
    if 0 <= n < 10 then "0" + NatText(n) else IntText(n)
  }

  /** For the twelve months, `f"{m:02d}"` is two digits that read back as `m`. */
  lemma MonthText(m: int)
    requires 1 <= m <= 12
    ensures |ZeroPad2(m)| == 2 && IsDigits(ZeroPad2(m)) && DigitsValue(ZeroPad2(m)) == m
  {
    if m >= 10 {
      assert ZeroPad2(m) == NatText(m);
      NatTextRoundTrip(m);
    } else {
      var s := ZeroPad2(m);
      assert s == ['0', DigitChar(m)];
      assert s[..1] == "0" && "0"[..0] == [];
    }
  }
}
