/** The text rules every durable invocation column obeys, and the error text a failing worker leaves behind. */
module InvocationText {
  import opened Common

  const MAX_IDENTITY_BYTES: nat := 4096
  const MAX_REFERENCE_BYTES: nat := 16384
  const MAX_ERROR_BYTES: nat := 16384
  const MAX_ERROR_LENGTH: nat := 4096

  /** Characters Python's `str.strip` removes. */
  predicate IsSpace(c: char) {
    c in {'\t', '\n', '\U{0B}', '\U{0C}', '\r', '\U{1C}', '\U{1D}', '\U{1E}', '\U{1F}', ' ', '\U{85}', '\U{A0}',
          '\U{1680}', '\U{2028}', '\U{2029}', '\U{202F}', '\U{205F}', '\U{3000}'}
    || '\U{2000}' <= c <= '\U{200A}'
  }

  predicate IsControl(c: char) {
    c < '\U{20}' || c == '\U{7F}'
  }

  function Utf8Width(c: char): nat {
    if c < '\U{80}' then 1 else if c < '\U{800}' then 2 else if c < '\U{10000}' then 3 else 4
  }

  function Utf8Length(s: string): nat {
    if s == [] then 0 else Utf8Width(s[0]) + Utf8Length(s[1..])
  }

  predicate Blank(s: string) {
    forall c | c in s :: IsSpace(c)
  }

  /** What `_required` demands of a caller and `_persisted_text` demands of a stored column. */
  predicate Acceptable(s: string, maximumBytes: nat) {
    && !Blank(s)
    && Utf8Length(s) <= maximumBytes
    && forall c | c in s :: !IsControl(c)
  }

  predicate AcceptableOption(s: Option<string>, maximumBytes: nat) {
    s.Some? ==> Acceptable(s.value, maximumBytes)
  }

  function StripLeft(s: string): string {
    if s != [] && IsSpace(s[0]) then StripLeft(s[1..]) else s
  }

  function StripRight(s: string): string {
    if s != [] && IsSpace(s[|s| - 1]) then StripRight(s[..|s| - 1]) else s
  }

  /** `value.strip()[:4096]`. */
  function StoredError(error: string): string {
    var stripped := StripRight(StripLeft(error));
    if |stripped| <= MAX_ERROR_LENGTH then stripped else stripped[..MAX_ERROR_LENGTH]
  }

  lemma {:induction false} Utf8LengthOfPrefix(s: string, n: nat)
    requires n <= |s|
    ensures Utf8Length(s[..n]) <= Utf8Length(s)
  {
    if n > 0 {
      assert s[..n][1..] == s[1..][..n - 1];
      Utf8LengthOfPrefix(s[1..], n - 1);
    }
  }

  lemma {:induction false} StripLeftKeeps(s: string)
    requires !Blank(s)
    ensures var t := StripLeft(s);
      && t != [] && !IsSpace(t[0])
      && Utf8Length(t) <= Utf8Length(s)
      && forall c | c in t :: c in s
  {
    if s != [] && IsSpace(s[0]) {
      assert s == [s[0]] + s[1..];
      StripLeftKeeps(s[1..]);
    }
  }

  lemma {:induction false} StripRightIsPrefix(s: string)
    requires s != [] && !IsSpace(s[0])
    ensures StripRight(s) != [] && StripRight(s) <= s
  {
    if IsSpace(s[|s| - 1]) {
      StripRightIsPrefix(s[..|s| - 1]);
    }
  }

  /** Stripping and truncating never produces an error the row validators would refuse. */
  lemma StoredErrorIsPersistable(error: string)
    requires Acceptable(error, MAX_ERROR_BYTES)
    ensures Acceptable(StoredError(error), MAX_ERROR_BYTES)
    ensures |StoredError(error)| <= MAX_ERROR_LENGTH
  {
    StripLeftKeeps(error);
    var left := StripLeft(error);
    StripRightIsPrefix(left);
    var kept := StoredError(error);
    assert kept == left[..|kept|];
    Utf8LengthOfPrefix(left, |kept|);
    assert kept[0] in kept;
  }

  lemma {:induction false} StripLeftDropsBlanks(lead: string, rest: string)
    requires Blank(lead) && (rest == [] || !IsSpace(rest[0]))
    ensures StripLeft(lead + rest) == rest
  {
    if lead == [] {
      assert lead + rest == rest;
    } else {
      assert (lead + rest)[1..] == lead[1..] + rest;
      StripLeftDropsBlanks(lead[1..], rest);
    }
  }

  lemma {:induction false} StripRightDropsBlanks(rest: string, trail: string)
    requires Blank(trail) && (rest == [] || !IsSpace(rest[|rest| - 1]))
    ensures StripRight(rest + trail) == rest
  {
    if trail == [] {
      assert rest + trail == rest;
    } else {
      var last := |trail| - 1;
      assert trail[last] in trail;
      assert (rest + trail)[..|rest + trail| - 1] == rest + trail[..last];
      StripRightDropsBlanks(rest, trail[..last]);
    }
  }

  /** The stored error is the first 4096 characters of what stands between the blanks around it. */
  lemma StoredErrorIsTheCore(lead: string, core: string, trail: string)
    requires Blank(lead) && Blank(trail)
    requires core != [] && !IsSpace(core[0]) && !IsSpace(core[|core| - 1])
    ensures StoredError(lead + core + trail) == if |core| <= 4096 then core else core[..4096]
  {
    assert lead + core + trail == lead + (core + trail);
    StripLeftDropsBlanks(lead, core + trail);
    StripRightDropsBlanks(core, trail);
  }

  /** Every text that is not blank has such a core. */
  lemma {:induction false} CoreExists(s: string) returns (lead: string, core: string, trail: string)
    requires !Blank(s)
    ensures s == lead + core + trail && Blank(lead) && Blank(trail)
    ensures core != [] && !IsSpace(core[0]) && !IsSpace(core[|core| - 1])
    decreases |s|
  {
    if IsSpace(s[0]) {
      assert s == [s[0]] + s[1..];
      lead, core, trail := CoreExists(s[1..]);
      lead := [s[0]] + lead;
    } else if IsSpace(s[|s| - 1]) {
      assert s == s[..|s| - 1] + [s[|s| - 1]];
      lead, core, trail := CoreExists(s[..|s| - 1]);
      trail := trail + [s[|s| - 1]];
    } else {
      lead, core, trail := [], s, [];
    }
  }

  /** How many values fit in a UTF-8 sequence of n bytes (section 3 of RFC 3629). */
  function Capacity(n: nat): nat
    requires n <= 3
  {
    if n == 0 then 0 else if n == 1 then 128 else 64 * 32 * (if n == 2 then 1 else 32)
  }

  /** A character takes the fewest bytes that hold its value. */
  lemma Utf8WidthIsLeast(c: char)
    ensures 1 <= Utf8Width(c) <= 4 && c as int >= Capacity(Utf8Width(c) - 1)
    ensures Utf8Width(c) < 4 ==> (c as int) < Capacity(Utf8Width(c))
  {
  }

  lemma {:induction false} AsciiIsNarrow(s: string)
    requires forall i | 0 <= i < |s| :: s[i] < '\U{7F}'
    ensures Utf8Length(s) == |s|
  {
    if s != [] {
      AsciiIsNarrow(s[1..]);
    }
  }
}
