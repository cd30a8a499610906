/** The sizes the ledger counts, by the texts themselves: UTF-8 bytes, percent-encoded URIs and decimal numbers. */
module LedgerSizes {
  import opened Common
  import opened LedgerReplay
  import opened LedgerSystem
  import Text = InvocationText

  // ----- UTF-8 (section 3 of RFC 3629) -----

  function Utf8(c: char): (bytes: seq<nat>)
    ensures forall i | 0 <= i < |bytes| :: bytes[i] < 256
  {
    var n := c as int;
    if n < 0x80 then [n]
    else if n < 0x800 then [0xC0 + n / 64, 0x80 + n % 64]
    else if n < 0x1_0000 then [0xE0 + n / 4096, 0x80 + n / 64 % 64, 0x80 + n % 64]
    else [0xF0 + n / 262_144, 0x80 + n / 4096 % 64, 0x80 + n / 64 % 64, 0x80 + n % 64]
  }

  function Encoded(s: string): seq<nat> {
    if s == [] then [] else Utf8(s[0]) + Encoded(s[1..])
  }

  lemma {:induction false} LengthsAreEncoded(s: string)
    ensures Text.Utf8Length(s) == |Encoded(s)|
  {
    if s != [] {
      LengthsAreEncoded(s[1..]);
    }
  }

  // ----- Percent encoding (section 2.1 of RFC 3986) -----

  function HexDigit(n: nat): char
    requires n < 16
  {
    "0123456789ABCDEF"[n]
  }

  function Percent(bytes: seq<nat>): string
    requires forall i | 0 <= i < |bytes| :: bytes[i] < 256
  {
    if bytes == [] then [] else ['%', HexDigit(bytes[0] / 16), HexDigit(bytes[0] % 16)] + Percent(bytes[1..])
  }

  lemma {:induction false} PercentTriples(bytes: seq<nat>)
    requires forall i | 0 <= i < |bytes| :: bytes[i] < 256
    ensures |Percent(bytes)| == 3 * |bytes|
  {
    if bytes != [] {
      PercentTriples(bytes[1..]);
    }
  }

  /** `urllib.parse.quote`: letters, digits and _.-~ stand for themselves, and / where it is safe. */
  function Quoted(s: string, slashIsSafe: bool): string {
    if s == [] then [] else
      (if 'a' <= s[0] <= 'z' || 'A' <= s[0] <= 'Z' || '0' <= s[0] <= '9' || s[0] in "_.-~" || (slashIsSafe && s[0] == '/') then [s[0]]
       else Percent(Utf8(s[0])))
      + Quoted(s[1..], slashIsSafe)
  }

  lemma {:induction false} QuotedLengthIsTheText(s: string, slashIsSafe: bool)
    ensures QuotedLength(s, slashIsSafe) == |Quoted(s, slashIsSafe)|
  {
    if s != [] {
      QuotedLengthIsTheText(s[1..], slashIsSafe);
      PercentTriples(Utf8(s[0]));
    }
  }

  function Decimal(n: nat): string {
    if n < 10 then [HexDigit(n)] else Decimal(n / 10) + [HexDigit(n % 10)]
  }

  lemma {:induction false} DigitsAreTheText(n: nat)
    ensures DigitCount(n) == |Decimal(n)|
  {
    if n >= 10 {
      DigitsAreTheText(n / 10);
    }
  }

  /** The URI of a version. */
  function UriText(u: Uri): string
    requires u.version >= 1
  {
    "artifact://" + Quoted(u.session, false) + "/" + Quoted(u.name, true) + "/v" + Decimal(u.version)
  }

  lemma UriLengthIsTheText(u: Uri)
    requires u.version >= 1
    ensures UriLength(u) == |UriText(u)|
  {
    QuotedLengthIsTheText(u.session, false);
    QuotedLengthIsTheText(u.name, true);
    DigitsAreTheText(u.version);
    assert |"artifact://"| == 11;
  }

  // ----- Usage -----

  function TotalBytes(texts: seq<string>): nat {
    if texts == [] then 0 else |Encoded(texts[0])| + TotalBytes(texts[1..])
  }

  /** The texts a version keeps in memory, but for its digest (71 characters) and its time (20 or 27 characters). */
  function KeptTexts(key: Key, i: Item): seq<string>
    requires i.ref.uri.version >= 1
  {
    [key.0, i.ref.artifactId, i.ref.name, i.ref.mediaType, UriText(i.ref.uri)]
    + [i.ref.createdBy, i.ref.taskId, i.trigger, i.content, i.metadata.encoded]
  }

  lemma {:induction false} AsciiIsOneByte(s: string)
    requires forall i | 0 <= i < |s| :: s[i] < '\U{80}'
    ensures |Encoded(s)| == |s|
  {
    if s != [] {
      AsciiIsOneByte(s[1..]);
    }
  }

  lemma {:induction false} PercentIsAscii(bytes: seq<nat>)
    requires forall i | 0 <= i < |bytes| :: bytes[i] < 256
    ensures forall i | 0 <= i < |Percent(bytes)| :: Percent(bytes)[i] < '\U{80}'
  {
    if bytes != [] {
      PercentIsAscii(bytes[1..]);
      HexIsAscii(bytes[0] / 16);
      HexIsAscii(bytes[0] % 16);
    }
  }

  lemma HexIsAscii(n: nat)
    requires n < 16
    ensures HexDigit(n) < '\U{80}'
  {
  }

  lemma {:induction false} QuotedIsAscii(s: string, slashIsSafe: bool)
    ensures forall i | 0 <= i < |Quoted(s, slashIsSafe)| :: Quoted(s, slashIsSafe)[i] < '\U{80}'
  {
    if s != [] {
      QuotedIsAscii(s[1..], slashIsSafe);
      PercentIsAscii(Utf8(s[0]));
    }
  }

  lemma {:induction false} DecimalIsAscii(n: nat)
    ensures forall i | 0 <= i < |Decimal(n)| :: Decimal(n)[i] < '\U{80}'
  {
    HexIsAscii(n % 10);
    if n >= 10 {
      DecimalIsAscii(n / 10);
    }
  }

  lemma UriIsAscii(u: Uri)
    requires u.version >= 1
    ensures |Encoded(UriText(u))| == |UriText(u)|
  {
    hide Quoted, Decimal;
    QuotedIsAscii(u.session, false);
    QuotedIsAscii(u.name, true);
    DecimalIsAscii(u.version);
    AsciiIsOneByte(UriText(u));
  }

  /** What a version adds to the ledger's usage: one version, the bytes of its content and metadata, its metadata nodes, and the
      bytes of all its texts. */
  lemma WeightIsTheTexts(key: Key, i: Item)
    requires i.ref.uri.version >= 1
    ensures var w := Weight(key, i);
      && w.versions == 1 && w.content == |Encoded(i.content)| && w.metadata == |Encoded(i.metadata.encoded)|
      && w.nodes == i.metadata.nodes
      && w.state == TotalBytes(KeptTexts(key, i)) + 71 + (if i.createdAt % 1_000_000 == 0 then 20 else 27)
  {
    hide Text.Utf8Length, UriLength, Encoded;
    UriLengthIsTheText(i.ref.uri);
    UriIsAscii(i.ref.uri);
    LengthsAreEncoded(key.0);
    LengthsAreEncoded(i.ref.artifactId);
    LengthsAreEncoded(i.ref.name);
    LengthsAreEncoded(i.ref.mediaType);
    LengthsAreEncoded(i.ref.createdBy);
    LengthsAreEncoded(i.ref.taskId);
    LengthsAreEncoded(i.trigger);
    LengthsAreEncoded(i.content);
    LengthsAreEncoded(i.metadata.encoded);
    TotalOfJoin([key.0, i.ref.artifactId, i.ref.name, i.ref.mediaType, UriText(i.ref.uri)],
                [i.ref.createdBy, i.ref.taskId, i.trigger, i.content, i.metadata.encoded]);
    TotalOfFive(key.0, i.ref.artifactId, i.ref.name, i.ref.mediaType, UriText(i.ref.uri));
    TotalOfFive(i.ref.createdBy, i.ref.taskId, i.trigger, i.content, i.metadata.encoded);
  }

  lemma {:induction false} TotalOfJoin(a: seq<string>, b: seq<string>)
    ensures TotalBytes(a + b) == TotalBytes(a) + TotalBytes(b)
    decreases |a|
  {
    hide Encoded;
    if a == [] {
      assert a + b == b;
    } else {
      assert (a + b)[1..] == a[1..] + b;
      TotalOfJoin(a[1..], b);
    }
  }

  lemma TotalOfFive(a: string, b: string, c: string, d: string, e: string)
    ensures TotalBytes([a, b, c, d, e]) == |Encoded(a)| + |Encoded(b)| + |Encoded(c)| + |Encoded(d)| + |Encoded(e)|
  {
    hide Encoded;
    TotalOfOneMore(a, [b, c, d, e]);
    TotalOfOneMore(b, [c, d, e]);
    TotalOfOneMore(c, [d, e]);
    TotalOfOneMore(d, [e]);
    TotalOfOneMore(e, []);
    assert [a] + [b, c, d, e] == [a, b, c, d, e] && [b] + [c, d, e] == [b, c, d, e] && [c] + [d, e] == [c, d, e];
    assert [d] + [e] == [d, e] && [e] + [] == [e];
  }

  lemma TotalOfOneMore(text: string, rest: seq<string>)
    ensures TotalBytes([text] + rest) == |Encoded(text)| + TotalBytes(rest)
  {
    hide Encoded;
    assert ([text] + rest)[1..] == rest;
  }

  /** In every reachable system, log and ledgers alike, the usage is within these numbers. */
  lemma ReachableUsage(actions: seq<Action>)
    requires Valid(EMPTY_SYSTEM, actions)
    ensures var s := Run(EMPTY_SYSTEM, actions);
      && Replay(s.log).Some? && IsSmall(Replay(s.log).value.usage)
      && forall l | l in s.ledgers :: IsSmall(s.ledgers[l].state.usage)
  {
    hide Run, Valid, ViewOk, Chain, Total;
    ReachableLogsReplay(actions);
    var s := Run(EMPTY_SYSTEM, actions);
    UsageIsSmall(Replay(s.log).value);
  }

  predicate IsSmall(u: Usage) {
    u.versions <= 100_000 && u.content <= 268_435_456 && u.metadata <= 67_108_864 && u.nodes <= 1_000_000 && u.state <= 402_653_184
  }

  lemma UsageIsSmall(v: View)
    requires ViewOk(v)
    ensures IsSmall(v.usage)
  {
    hide Chain, Total, IdsOk;
  }

  /** An identifier is a text of bounded length with something besides blanks, and without NUL, CR or LF. */
  lemma TextsInWords(s: string, maximum: nat)
    ensures TextOk(s, maximum) <==>
      && |s| <= maximum && (exists i :: 0 <= i < |s| && !Text.IsSpace(s[i]))
      && forall i | 0 <= i < |s| :: s[i] != '\U{0}' && s[i] != '\U{0D}' && s[i] != '\U{0A}'
  {
    hide Text.IsSpace;
    if exists i :: 0 <= i < |s| && !Text.IsSpace(s[i]) {
      var i :| 0 <= i < |s| && !Text.IsSpace(s[i]);
      assert s[i] in s;
    }
  }

  // ----- Admission -----

  lemma DefaultTriggersAreTexts()
    ensures TextOk("create", 512) && TextOk("revise", 512)
  {
    assert "create"[0] in "create" && "revise"[0] in "revise";
  }

  /** A good request is admitted exactly when its new id is a text of at most 512 characters, its version a 64-bit integer, its
      URI at most 4096 characters long, and the ledger stays within its limits with the version's texts added. */
  lemma AdmissionExactly(st: State, r: Request, d: Draw)
    requires RequestOk(r)
    ensures var version := |Past(st, RequestKey(r))| + 1; var uri := UriText(Uri(r.session, r.name, version));
      var item := ItemOf(DraftPayload(Past(st, RequestKey(r)), r, d));
      Admitted(st, r, d) <==>
        && TextOk(d.artifactId, 512) && version <= 0x7FFF_FFFF_FFFF_FFFF && |uri| <= 4096
        && st.usage.versions + 1 <= 100_000
        && st.usage.content + |Encoded(r.content)| <= 268_435_456
        && st.usage.metadata + |Encoded(r.metadata.encoded)| <= 67_108_864
        && st.usage.nodes + r.metadata.nodes <= 1_000_000
        && st.usage.state + TotalBytes(KeptTexts(RequestKey(r), item)) + 71 + (if d.createdAt % 1_000_000 == 0 then 20 else 27)
             <= 402_653_184
  {
    hide TextOk, Weight, UriText, UriLength, Text.Utf8Length, Encoded, TotalBytes, KeptTexts;
    var version := |Past(st, RequestKey(r))| + 1;
    var p := DraftPayload(Past(st, RequestKey(r)), r, d);
    DefaultTriggersAreTexts();
    UriLengthIsTheText(Uri(r.session, r.name, version));
    WeightIsTheTexts(RequestKey(r), ItemOf(p));
  }

  /** What replay has checked of every version event it accepted. */
  lemma ReplayedPayloads(log: seq<Stored>, n: nat)
    requires Replay(log).Some? && n < |log| && IsVersion(log[n])
    ensures var p := log[n].event.payload;
      && TextOk(p.session, 512) && TextOk(p.taskId, 512) && TextOk(p.trigger, 512) && TextOk(p.ref.artifactId, 512)
      && TextOk(p.ref.name, 512) && TextOk(p.ref.mediaType, 255) && TextOk(p.ref.createdBy, 512)
      && |Encoded(p.content)| <= 16_777_216 && |Encoded(p.metadata.encoded)| <= 1_048_576 && p.metadata.nodes <= 10_000
      && 1 <= p.ref.version <= 0x7FFF_FFFF_FFFF_FFFF && p.ref.parent == (if p.ref.version == 1 then None else Some(p.ref.version - 1))
      && p.ref.taskId == p.taskId && p.ref.digest == Sha256(p.content) && p.ref.uri == Uri(p.session, p.ref.name, p.ref.version)
      && |UriText(p.ref.uri)| <= 4096
  {
    hide Replay, TextOk, UriText, UriLength, Encoded;
    ReplayHoldsEveryEvent(log, n);
    var p := log[n].event.payload;
    LengthsAreEncoded(p.content);
    LengthsAreEncoded(p.metadata.encoded);
    UriLengthIsTheText(p.ref.uri);
  }
}
