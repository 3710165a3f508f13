/**
 The certificate bundle of scripts/fetch_tinkoff_gost_ca.py: its writer and its parser, sections 2 and 3 of RFC 7468.
 */
module PemBundle {
  import opened Base64
  import opened Common

  const PEM_BEGIN := "-----BEGIN CERTIFICATE-----"
  const PEM_END := "-----END CERTIFICATE-----"

  // ----------------------------------------------------------- lines of text

  /** The characters at which `str.splitlines` breaks. */
  predicate IsLineBreak(c: char) {
    '\n' <= c <= '\r' || '\U{1c}' <= c <= '\U{1e}' || c == '\U{85}' || c == '\U{2028}' || c == '\U{2029}'
  }

  /** `str.isspace`. */
  predicate IsSpace(c: char) {
    || c == ' ' || '\t' <= c <= '\r' || '\U{1c}' <= c <= '\U{1f}' || c == '\U{85}' || c == '\U{a0}' || c == '\U{1680}'
    || '\U{2000}' <= c <= '\U{200a}' || c == '\U{2028}' || c == '\U{2029}' || c == '\U{202f}' || c == '\U{205f}'
    || c == '\U{3000}'
  }

  function StripLeft(s: string): string {
    if s != "" && IsSpace(s[0]) then StripLeft(s[1..]) else s
  }

  function StripRight(s: string): string {
    if s != "" && IsSpace(s[|s| - 1]) then StripRight(s[..|s| - 1]) else s
  }

  function Strip(s: string): string {
    StripRight(StripLeft(s))
  }

  /** `line` is the text since the last break; a carriage return takes a following newline with it. */
  function SplitFrom(line: string, text: string): seq<string>
    decreases |text|
  {
    if text == "" then (if line == "" then [] else [line])
    else if !IsLineBreak(text[0]) then SplitFrom(line + [text[0]], text[1..])
    else if text[0] == '\r' && |text| > 1 && text[1] == '\n' then [line] + SplitFrom("", text[2..])
    else [line] + SplitFrom("", text[1..])
  }

  function SplitLines(text: string): seq<string> {
    SplitFrom("", text)
  }

  /** Each line followed by a newline. */
  function Unlines(lines: seq<string>): string {
    if lines == [] then "" else lines[0] + "\n" + Unlines(lines[1..])
  }

  function Concat(parts: seq<string>): string {
    if parts == [] then "" else parts[0] + Concat(parts[1..])
  }

  function WithoutReturns(s: string): string {
    if s == "" then "" else (if s[0] == '\r' then "" else [s[0]]) + WithoutReturns(s[1..])
  }

  // ----------------------------------------------------------------- writing

  /** `textwrap.wrap` of one word: pieces of at most `width` characters. */
  function Wrap(s: string, width: nat): seq<string>
    requires width > 0
  {
    if s == "" then [] else if |s| <= width then [s] else [s[..width]] + Wrap(s[width..], width)
  }

  function PemLines(der: Bytes): seq<string> {
    [PEM_BEGIN] + Wrap(Encode(der), 64) + [PEM_END]
  }

  /** `der_to_pem`. */
  function DerToPem(der: Bytes): string {
    Unlines(PemLines(der))
  }

  function JoinHosts(hosts: seq<string>): string {
    if hosts == [] then "" else if |hosts| == 1 then hosts[0] else hosts[0] + ", " + JoinHosts(hosts[1..])
  }

  const HEADER_TITLE := "# Russian Trusted Root CA + Sub CA chain"
  const HEADER_NOTE := "# Auto-generated by " + "scripts/fetch_tinkoff_gost_ca.py" + " - do not edit by hand."
  const HEADER_ENDPOINTS := "# Endpoints: "

  function HeaderLines(hosts: seq<string>): seq<string> {
    [HEADER_TITLE, HEADER_NOTE, HEADER_ENDPOINTS + JoinHosts(hosts), ""]
  }

  function PemText(certs: seq<Bytes>): string {
    if certs == [] then "" else DerToPem(certs[0]) + PemText(certs[1..])
  }

  /** The certificates whose fingerprint has not occurred before, in order. */
  function FirstByFingerprint(certs: seq<Bytes>, fp: Bytes -> string): seq<Bytes> {
    if certs == [] then []
    else
      var front := FirstByFingerprint(certs[..|certs| - 1], fp);
      var last := certs[|certs| - 1];
      if exists i | 0 <= i < |front| :: fp(front[i]) == fp(last) then front else front + [last]
  }

  /** The list without repetitions, each certificate where it first occurred. */
  function FirstOccurrences(certs: seq<Bytes>): seq<Bytes> {
    if certs == [] then []
    else
      var front := FirstOccurrences(certs[..|certs| - 1]);
      if certs[|certs| - 1] in front then front else front + [certs[|certs| - 1]]
  }

  function BundleText(certs: seq<Bytes>, hosts: seq<string>, fp: Bytes -> string): string {
    Unlines(HeaderLines(hosts)) + PemText(FirstByFingerprint(certs, fp))
  }

  ghost predicate HasFingerprint(order: seq<Bytes>, fp: Bytes -> string, f: string) {
    exists k | 0 <= k < |order| :: fp(order[k]) == f
  }

  lemma FingerprintOfSnoc(order: seq<Bytes>, der: Bytes, fp: Bytes -> string, f: string)
    ensures HasFingerprint(order + [der], fp, f) <==> HasFingerprint(order, fp, f) || f == fp(der)
  {
    var longer := order + [der];
    assert fp(longer[|order|]) == fp(der);
    if HasFingerprint(order, fp, f) {
      var k :| 0 <= k < |order| && fp(order[k]) == f;
      assert fp(longer[k]) == f;
    }
  }

  /** The deduplication of `write_bundle`; `seen` is its dictionary of fingerprints, `order` its insertion order. */
  method Deduplicate(certs: seq<Bytes>, fp: Bytes -> string) returns (order: seq<Bytes>)
    ensures order == FirstByFingerprint(certs, fp)
  {
    var seen: map<string, Bytes> := map[];
    order := [];
    for i := 0 to |certs|
      invariant order == FirstByFingerprint(certs[..i], fp)
      invariant forall f :: f in seen <==> HasFingerprint(order, fp, f)
    {
      var der := certs[i];
      assert certs[..i + 1][..i] == certs[..i];
      assert fp(der) in seen <==> HasFingerprint(order, fp, fp(der));
      if fp(der) !in seen {
        forall f
          ensures HasFingerprint(order + [der], fp, f) <==> HasFingerprint(order, fp, f) || f == fp(der)
        {
          FingerprintOfSnoc(order, der, fp, f);
        }
        seen := seen[fp(der) := der];
        order := order + [der];
      }
    }
    assert certs[..|certs|] == certs;
  }

  /** `write_bundle`. */
  method WriteBundle(certs: seq<Bytes>, hosts: seq<string>, fp: Bytes -> string) returns (text: string, written: nat)
    ensures text == BundleText(certs, hosts, fp) && written == |FirstByFingerprint(certs, fp)|
  {
    hide DerToPem, HeaderLines;
    var order := Deduplicate(certs, fp);
    text := Unlines(HeaderLines(hosts));
    for i := 0 to |order|
      invariant text + PemText(order[i..]) == BundleText(certs, hosts, fp)
    {
      assert order[i..][1..] == order[i + 1..];
      text := text + DerToPem(order[i]);
    }
    written := |order|;
  }

  // ----------------------------------------------------------------- parsing

  datatype BadPem = NotBase64 | EmptyBody

  type Parsed = Result<seq<Bytes>, BadPem>

  /** The body of a closed block: everything between its first and last collected line. */
  function Body(current: seq<string>): string
    requires current != []
  {
    if |current| < 2 then "" else WithoutReturns(Concat(current[1..|current| - 1]))
  }

  /** The line machine of `_parse_pem_blocks` from a given state. */
  function ParseFrom(lines: seq<string>, current: seq<string>, blocks: seq<Bytes>): Parsed
    decreases |lines|
  {
    if lines == [] then Ok(blocks)
    else
      var stripped := Strip(lines[0]);
      if stripped == PEM_BEGIN then ParseFrom(lines[1..], [stripped], blocks)
      else if stripped == PEM_END then
        match Decode(Body(current + [stripped]))
        case None => Err(NotBase64)
        case Some(decoded) => if decoded == [] then Err(EmptyBody) else ParseFrom(lines[1..], [], blocks + [decoded])
      else ParseFrom(lines[1..], if current == [] then [] else current + [lines[0]], blocks)
  }

  /** `_parse_pem_blocks`. */
  method ParsePemBlocks(text: string) returns (result: Parsed)
    ensures result == ParseFrom(SplitLines(text), [], [])
  {
    var lines := SplitLines(text);
    var blocks: seq<Bytes> := [];
    var current: seq<string> := [];
    for i := 0 to |lines|
      invariant ParseFrom(lines[i..], current, blocks) == ParseFrom(lines, [], [])
    {
      hide Strip, Body, Decode;
      var line, stripped := lines[i], Strip(lines[i]);
      assert lines[i..][1..] == lines[i + 1..];
      if stripped == PEM_BEGIN {
        current := [stripped];
      } else if stripped == PEM_END {
        current := current + [stripped];
        var decoded := Decode(Body(current));
        if decoded.None? {
          return Err(NotBase64);
        }
        if decoded.value == [] {
          return Err(EmptyBody);
        }
        blocks := blocks + [decoded.value];
        current := [];
      } else if current != [] {
        current := current + [line];
      }
    }
    result := Ok(blocks);
  }

  // ------------------------------------------------------------ splitting back

  predicate Unbroken(s: string) {
    forall i | 0 <= i < |s| :: !IsLineBreak(s[i])
  }

  lemma {:induction false} SplitOneLine(line: string, rest: string, text: string)
    requires Unbroken(rest)
    ensures SplitFrom(line, rest + "\n" + text) == [line + rest] + SplitFrom("", text)
    decreases |rest|
  {
    var whole := rest + "\n" + text;
    if rest == "" {
      assert whole[0] == '\n' && whole[1..] == text;
      assert line + rest == line;
    } else {
      assert whole[0] == rest[0] && whole[1..] == rest[1..] + "\n" + text;
      SplitOneLine(line + [rest[0]], rest[1..], text);
      assert line + [rest[0]] + rest[1..] == line + rest;
    }
  }

  lemma {:induction false} SplitUnlines(lines: seq<string>, text: string)
    requires forall i | 0 <= i < |lines| :: Unbroken(lines[i])
    ensures SplitLines(Unlines(lines) + text) == lines + SplitLines(text)
  {
    if lines == [] {
      assert Unlines(lines) + text == text;
    } else {
      SplitUnlines(lines[1..], text);
      var later := Unlines(lines[1..]) + text;
      SplitOneLine("", lines[0], later);
      assert Unlines(lines) + text == lines[0] + "\n" + later;
      assert "" + lines[0] == lines[0];
      assert lines == [lines[0]] + lines[1..];
    }
  }

  // -------------------------------------------------------------- strip and wrap

  lemma {:induction false} StripLeftIsSuffix(s: string)
    ensures forall i | 0 <= i < |StripLeft(s)| :: StripLeft(s)[i] in s
    ensures s != "" && !IsSpace(s[0]) ==> StripLeft(s) == s
  {
    if s != "" && IsSpace(s[0]) {
      StripLeftIsSuffix(s[1..]);
    }
  }

  lemma {:induction false} StripRightIsPrefix(s: string)
    ensures StripRight(s) <= s
    ensures s != "" && !IsSpace(s[0]) ==> StripRight(s) != "" && StripRight(s)[0] == s[0]
  {
    if s != "" && IsSpace(s[|s| - 1]) {
      StripRightIsPrefix(s[..|s| - 1]);
    }
  }

  lemma HashIsNoSpace()
    ensures !IsSpace('#') && !IsSpace('-')
  {
  }

  /** A line without a dash is no marker, and neither is one that starts with `#`. */
  lemma NotAMarker(line: string)
    requires '-' !in line || (line != "" && line[0] == '#')
    ensures Strip(line) != PEM_BEGIN && Strip(line) != PEM_END
  {
    hide IsSpace;
    StripLeftIsSuffix(line);
    StripRightIsPrefix(StripLeft(line));
    assert PEM_BEGIN[0] == '-' && PEM_END[0] == '-';
    if '-' !in line {
      assert Strip(line) != "" ==> Strip(line)[0] == StripLeft(line)[0];
    } else {
      HashIsNoSpace();
    }
  }

  lemma MarkersStripToThemselves()
    ensures Strip(PEM_BEGIN) == PEM_BEGIN && Strip(PEM_END) == PEM_END
  {
    hide IsSpace;
    HashIsNoSpace();
    StripLeftIsSuffix(PEM_BEGIN);
    StripLeftIsSuffix(PEM_END);
    assert PEM_BEGIN[0] == PEM_END[0] == PEM_BEGIN[|PEM_BEGIN| - 1] == PEM_END[|PEM_END| - 1] == '-';
  }

  lemma AlphabetIsPlain(c: char)
    requires InAlphabet(c)
    ensures c != '-' && !IsLineBreak(c) && c != '\r'
  {
  }

  predicate Plain(s: string) {
    forall i | 0 <= i < |s| :: InAlphabet(s[i])
  }

  lemma {:induction false} WrapFacts(s: string)
    requires Plain(s)
    ensures Concat(Wrap(s, 64)) == s
    ensures forall i | 0 <= i < |Wrap(s, 64)| :: Plain(Wrap(s, 64)[i]) && 0 < |Wrap(s, 64)[i]| <= 64
    ensures forall i | 0 <= i < |Wrap(s, 64)| - 1 :: |Wrap(s, 64)[i]| == 64
  {
    if |s| > 64 {
      WrapFacts(s[64..]);
      assert s == s[..64] + s[64..];
    } else if s != "" {
      assert Wrap(s, 64)[1..] == [];
    }
  }

  lemma {:induction false} PlainHasNoReturns(s: string)
    requires Plain(s)
    ensures WithoutReturns(s) == s
  {
    if s != "" {
      AlphabetIsPlain(s[0]);
      PlainHasNoReturns(s[1..]);
      assert s == [s[0]] + s[1..];
    }
  }

  lemma PlainLine(s: string)
    requires Plain(s)
    ensures '-' !in s && Unbroken(s)
  {
  }

  // ---------------------------------------------------------------- round trip

  lemma {:induction false} CollectLines(lines: seq<string>, rest: seq<string>, current: seq<string>, blocks: seq<Bytes>)
    requires forall i | 0 <= i < |lines| :: Plain(lines[i])
    requires current != []
    ensures ParseFrom(lines + rest, current, blocks) == ParseFrom(rest, current + lines, blocks)
    decreases |lines|
  {
    hide Strip, Decode, Body;
    if lines == [] {
      assert lines + rest == rest && current + lines == current;
    } else {
      PlainLine(lines[0]);
      NotAMarker(lines[0]);
      assert (lines + rest)[1..] == lines[1..] + rest;
      CollectLines(lines[1..], rest, current + [lines[0]], blocks);
      assert current + [lines[0]] + lines[1..] == current + lines;
    }
  }

  lemma {:induction false} SkipLines(lines: seq<string>, rest: seq<string>, blocks: seq<Bytes>)
    requires forall i | 0 <= i < |lines| :: Strip(lines[i]) != PEM_BEGIN && Strip(lines[i]) != PEM_END
    ensures ParseFrom(lines + rest, [], blocks) == ParseFrom(rest, [], blocks)
    decreases |lines|
  {
    hide Strip, Decode, Body;
    if lines == [] {
      assert lines + rest == rest;
    } else {
      assert (lines + rest)[1..] == lines[1..] + rest;
      SkipLines(lines[1..], rest, blocks);
    }
  }

  /** One written block parses back to its bytes; an empty one is refused. */
  lemma ParseOneBlock(der: Bytes, rest: seq<string>, blocks: seq<Bytes>)
    ensures ParseFrom(PemLines(der) + rest, [], blocks) ==
              if der == [] then Err(EmptyBody) else ParseFrom(rest, [], blocks + [der])
  {
    hide Strip, Decode, Encode, Wrap, WithoutReturns, InAlphabet;
    var wrapped := Wrap(Encode(der), 64);
    EncodeAlphabet(der);
    WrapFacts(Encode(der));
    MarkersStripToThemselves();
    var lines := PemLines(der) + rest;
    assert lines[1..] == wrapped + ([PEM_END] + rest);
    CollectLines(wrapped, [PEM_END] + rest, [PEM_BEGIN], blocks);
    var tail := [PEM_END] + rest;
    assert tail[1..] == rest;
    var current := [PEM_BEGIN] + wrapped + [PEM_END];
    assert current[1..|current| - 1] == wrapped;
    PlainHasNoReturns(Encode(der));
    DecodeEncode(der);
    assert Body(current) == Encode(der);
  }

  lemma PemLinesAreUnbroken(der: Bytes)
    ensures forall i | 0 <= i < |PemLines(der)| :: Unbroken(PemLines(der)[i])
  {
    hide Encode, Wrap, InAlphabet;
    EncodeAlphabet(der);
    WrapFacts(Encode(der));
    var wrapped := Wrap(Encode(der), 64);
    forall i | 0 <= i < |wrapped|
      ensures Unbroken(wrapped[i])
    {
      PlainLine(wrapped[i]);
    }
    assert Unbroken(PEM_BEGIN) && Unbroken(PEM_END);
  }

  /** The text of a list of certificates parses to that list exactly when none is empty. */
  lemma {:induction false} ParsePemText(certs: seq<Bytes>, blocks: seq<Bytes>)
    ensures ParseFrom(SplitLines(PemText(certs)), [], blocks) ==
              if [] in certs then Err(EmptyBody) else Ok(blocks + certs)
  {
    hide PemLines, Strip, Decode;
    if certs == [] {
      assert blocks + certs == blocks;
    } else {
      var der, rest := certs[0], certs[1..];
      PemLinesAreUnbroken(der);
      SplitUnlines(PemLines(der), PemText(rest));
      ParseOneBlock(der, SplitLines(PemText(rest)), blocks);
      ParsePemText(rest, blocks + [der]);
      assert certs == [der] + rest;
      assert blocks + [der] + rest == blocks + certs;
    }
  }

  lemma {:induction false} HostsStayOnOneLine(hosts: seq<string>)
    requires forall i | 0 <= i < |hosts| :: Unbroken(hosts[i])
    ensures Unbroken(JoinHosts(hosts))
  {
    if |hosts| > 1 {
      HostsStayOnOneLine(hosts[1..]);
    }
  }

  predicate Ignorable(line: string) {
    Unbroken(line) && Strip(line) != PEM_BEGIN && Strip(line) != PEM_END
  }

  lemma CommentIsIgnorable(line: string)
    requires Unbroken(line) && (line == "" || line[0] == '#')
    ensures Ignorable(line)
  {
    hide Strip;
    NotAMarker(line);
  }

  lemma CommentWithTail(prefix: string, tail: string)
    requires Unbroken(prefix) && prefix != "" && prefix[0] == '#' && Unbroken(tail)
    ensures Ignorable(prefix + tail)
  {
    hide Ignorable, IsLineBreak;
    CommentIsIgnorable(prefix + tail);
  }

  lemma EndpointsPrefix()
    ensures Unbroken(HEADER_ENDPOINTS) && HEADER_ENDPOINTS[0] == '#'
  {
  }

  lemma TitleIsIgnorable()
    ensures Ignorable(HEADER_TITLE)
  {
    hide Ignorable;
    CommentIsIgnorable(HEADER_TITLE);
  }

  lemma UnbrokenJoin(a: string, b: string)
    requires Unbroken(a) && Unbroken(b)
    ensures Unbroken(a + b)
  {
    hide IsLineBreak;
  }

  lemma NoteIsUnbroken()
    ensures Unbroken("# Auto-generated by ") && Unbroken("scripts/fetch_tinkoff_gost_ca.py")
    ensures Unbroken(" - do not edit by hand.")
  {
  }

  lemma NoteIsIgnorable()
    ensures Ignorable(HEADER_NOTE)
  {
    hide Ignorable, Unbroken;
    NoteIsUnbroken();
    UnbrokenJoin("# Auto-generated by ", "scripts/fetch_tinkoff_gost_ca.py");
    UnbrokenJoin("# Auto-generated by " + "scripts/fetch_tinkoff_gost_ca.py", " - do not edit by hand.");
    CommentIsIgnorable(HEADER_NOTE);
  }

  lemma EndpointsAreIgnorable(hosts: seq<string>)
    requires forall i | 0 <= i < |hosts| :: Unbroken(hosts[i])
    ensures Ignorable(HEADER_ENDPOINTS + JoinHosts(hosts))
  {
    hide Ignorable, Unbroken, IsLineBreak;
    HostsStayOnOneLine(hosts);
    EndpointsPrefix();
    CommentWithTail(HEADER_ENDPOINTS, JoinHosts(hosts));
  }

  lemma HeaderIsIgnored(hosts: seq<string>)
    requires forall i | 0 <= i < |hosts| :: Unbroken(hosts[i])
    ensures forall i | 0 <= i < |HeaderLines(hosts)| :: Ignorable(HeaderLines(hosts)[i])
  {
    hide Ignorable;
    TitleIsIgnorable();
    NoteIsIgnorable();
    EndpointsAreIgnorable(hosts);
    CommentIsIgnorable("");
  }

  lemma {:induction false} FingerprintsDeduplicate(certs: seq<Bytes>, fp: Bytes -> string)
    requires forall i, j | 0 <= i < |certs| && 0 <= j < |certs| :: fp(certs[i]) == fp(certs[j]) ==> certs[i] == certs[j]
    ensures FirstByFingerprint(certs, fp) == FirstOccurrences(certs)
    ensures forall c :: c in FirstOccurrences(certs) <==> c in certs
  {
    if certs != [] {
      var n := |certs| - 1;
      var front, last := certs[..n], certs[n];
      FingerprintsDeduplicate(front, fp);
      var kept := FirstOccurrences(front);
      if last in kept {
        var i :| 0 <= i < |kept| && kept[i] == last;
        assert fp(kept[i]) == fp(last);
      }
      if exists i | 0 <= i < |kept| :: fp(kept[i]) == fp(last) {
        var i :| 0 <= i < |kept| && fp(kept[i]) == fp(last);
        assert kept[i] in kept;
        assert kept[i] in front;
        var j :| 0 <= j < n && certs[j] == kept[i];
        assert fp(certs[j]) == fp(certs[n]);
        assert last in kept;
      }
      assert certs == front + [last];
    }
  }

  /** `x` occurs in `certs` before `y` first does. */
  ghost predicate OccursBefore(certs: seq<Bytes>, x: Bytes, y: Bytes) {
    exists p | 0 <= p < |certs| :: certs[p] == x && y !in certs[..p + 1]
  }

  /** Each certificate once, in the order of first occurrence. */
  lemma {:induction false} FirstOccurrencesMean(certs: seq<Bytes>)
    ensures var out := FirstOccurrences(certs);
            && (forall c :: c in out <==> c in certs)
            && (forall i, j | 0 <= i < j < |out| :: out[i] != out[j] && OccursBefore(certs, out[i], out[j]))
  {
    if certs != [] {
      var n := |certs| - 1;
      var front, out := certs[..n], FirstOccurrences(certs);
      FirstOccurrencesMean(front);
      assert certs == front + [certs[n]];
      forall i, j | 0 <= i < j < |out|
        ensures out[i] != out[j] && OccursBefore(certs, out[i], out[j])
      {
        assert out[i] in FirstOccurrences(front);
        if j < |FirstOccurrences(front)| {
          var p :| 0 <= p < n && front[p] == out[i] && out[j] !in front[..p + 1];
          assert certs[p] == out[i] && certs[..p + 1] == front[..p + 1];
        } else {
          var p :| 0 <= p < n && front[p] == out[i];
          assert certs[p] == out[i] && certs[..p + 1] == front[..p + 1];
          assert forall c | c in front[..p + 1] :: c in front;
        }
      }
    }
  }

  /**
   Round trip of the bundle: parsing the written text ignores the comment header and returns the certificates with
   duplicates removed, in first-occurrence order, exactly when no certificate is empty.
   */
  lemma BundleRoundTrip(certs: seq<Bytes>, hosts: seq<string>, fp: Bytes -> string)
    requires forall i | 0 <= i < |hosts| :: Unbroken(hosts[i])
    requires forall i, j | 0 <= i < |certs| && 0 <= j < |certs| :: fp(certs[i]) == fp(certs[j]) ==> certs[i] == certs[j]
    ensures var parsed := ParseFrom(SplitLines(BundleText(certs, hosts, fp)), [], []);
            && (parsed == Ok(FirstOccurrences(certs)) <==> [] !in certs)
            && ([] in certs ==> parsed == Err(EmptyBody))
  {
    hide HeaderLines, Strip;
    var kept := FirstByFingerprint(certs, fp);
    FingerprintsDeduplicate(certs, fp);
    HeaderIsIgnored(hosts);
    SplitUnlines(HeaderLines(hosts), PemText(kept));
    SkipLines(HeaderLines(hosts), SplitLines(PemText(kept)), []);
    ParsePemText(kept, []);
    assert [] + kept == kept;
  }

  // ------------------------------------------------- the parser, from the lines

  predicate IsMarker(line: string) {
    Strip(line) == PEM_BEGIN || Strip(line) == PEM_END
  }

  /** Line `b` opens the block that is open at line `e`: a BEGIN with no marker in between. */
  predicate Opens(lines: seq<string>, b: nat, e: nat)
    requires e <= |lines|
  {
    b < e && Strip(lines[b]) == PEM_BEGIN && forall k | b < k < e :: !IsMarker(lines[k])
  }

  /** What stands between an END and the BEGIN that opens its block; nothing if no block is open. */
  ghost predicate IsBody(lines: seq<string>, e: nat, s: string)
    requires e < |lines|
  {
    if exists b :: Opens(lines, b, e) then
      exists b :: Opens(lines, b, e) && s == WithoutReturns(Concat(lines[b + 1..e]))
    else s == ""
  }

  /** A body is base64 of at least one byte, or the whole text is refused. */
  function BlockOf(body: string): Result<Bytes, BadPem> {
    match Decode(body)
    case None => Err(NotBase64)
    case Some(decoded) => if decoded == [] then Err(EmptyBody) else Ok(decoded)
  }

  /** The END at line `e` yields this block or refusal. */
  ghost predicate Yields(lines: seq<string>, e: nat, block: Result<Bytes, BadPem>)
    requires e < |lines|
  {
    exists s :: IsBody(lines, e, s) && BlockOf(s) == block
  }

  /** The END lines from line `i` on. */
  function EndsFrom(lines: seq<string>, i: nat): (ends: seq<nat>)
    requires i <= |lines|
    ensures forall e :: e in ends <==> i <= e < |lines| && Strip(lines[e]) == PEM_END
    ensures forall k | 0 <= k < |ends| :: i <= ends[k] < |lines|
    ensures forall j, k | 0 <= j < k < |ends| :: ends[j] < ends[k]
    decreases |lines| - i
  {
    if i == |lines| then []
    else
      var later := EndsFrom(lines, i + 1);
      if Strip(lines[i]) == PEM_END then [i] + later else later
  }

  lemma OneOpener(lines: seq<string>, e: nat, b: nat, c: nat)
    requires e <= |lines| && Opens(lines, b, e) && Opens(lines, c, e)
    ensures b == c
  {
    assert b < c ==> IsMarker(lines[c]);
    assert c < b ==> IsMarker(lines[b]);
  }

  /** Every END yields one answer. */
  lemma YieldsOnce(lines: seq<string>, e: nat, x: Result<Bytes, BadPem>, y: Result<Bytes, BadPem>)
    requires e < |lines| && Yields(lines, e, x) && Yields(lines, e, y)
    ensures x == y
  {
    hide Opens, BlockOf, WithoutReturns, Concat;
    if exists b :: Opens(lines, b, e) {
      var b :| Opens(lines, b, e);
      forall c | Opens(lines, c, e)
        ensures c == b
      {
        OneOpener(lines, e, b, c);
      }
    }
  }

  /** `current` is what the machine has collected before line `i`. */
  ghost predicate Collected(lines: seq<string>, i: nat, current: seq<string>)
    requires i <= |lines|
  {
    if current == [] then forall b :: !Opens(lines, b, i)
    else exists b :: Opens(lines, b, i) && current == [PEM_BEGIN] + lines[b + 1..i]
  }

  lemma OpensNext(lines: seq<string>, i: nat, b: nat)
    requires i < |lines|
    ensures Opens(lines, b, i + 1) <==>
              if b == i then Strip(lines[i]) == PEM_BEGIN else Opens(lines, b, i) && !IsMarker(lines[i])
  {
  }

  /** What the machine has collected after line `i`: a BEGIN starts anew, */
  lemma CollectedAtBegin(lines: seq<string>, i: nat)
    requires i < |lines| && Strip(lines[i]) == PEM_BEGIN
    ensures Collected(lines, i + 1, [PEM_BEGIN])
  {
    hide Strip;
    assert Opens(lines, i, i + 1) && [PEM_BEGIN] == [PEM_BEGIN] + lines[i + 1..i + 1];
  }

  /** an END leaves nothing, and so does any other line outside a block, */
  lemma CollectedNothing(lines: seq<string>, i: nat)
    requires i < |lines| && Strip(lines[i]) != PEM_BEGIN
    requires Strip(lines[i]) == PEM_END || forall b :: !Opens(lines, b, i)
    ensures Collected(lines, i + 1, [])
  {
    hide Strip, Opens;
    var next := i + 1;
    forall b: nat
      ensures !Opens(lines, b, next)
    {
      OpensNext(lines, i, b);
    }
  }

  lemma NothingOpen(lines: seq<string>, i: nat)
    requires i <= |lines| && Collected(lines, i, [])
    ensures forall b :: !Opens(lines, b, i)
  {
  }

  /** and within a block the line is added. */
  lemma CollectedMore(lines: seq<string>, i: nat, current: seq<string>)
    requires i < |lines| && !IsMarker(lines[i]) && current != [] && Collected(lines, i, current)
    ensures Collected(lines, i + 1, current + [lines[i]])
  {
    hide IsMarker;
    var b :| Opens(lines, b, i) && current == [PEM_BEGIN] + lines[b + 1..i];
    assert lines[b + 1..i + 1] == lines[b + 1..i] + [lines[i]];
    OpensNext(lines, i, b);
    assert Opens(lines, b, i + 1) && current + [lines[i]] == [PEM_BEGIN] + lines[b + 1..i + 1];
  }

  /** The body the machine decodes at an END is the one between the markers. */
  lemma BodyBetween(lines: seq<string>, e: nat, current: seq<string>)
    requires e < |lines| && Collected(lines, e, current)
    ensures IsBody(lines, e, Body(current + [PEM_END]))
  {
    hide IsMarker, Strip;
    var all := current + [PEM_END];
    if current != [] {
      var b :| Opens(lines, b, e) && current == [PEM_BEGIN] + lines[b + 1..e];
      assert all[1..|all| - 1] == lines[b + 1..e];
    }
  }

  /** The blocks, or the first refusal, of the END lines `ends`. */
  ghost predicate Reads(lines: seq<string>, ends: seq<nat>, blocks: seq<Bytes>, result: Parsed)
    requires forall k | 0 <= k < |ends| :: ends[k] < |lines|
  {
    match result
    case Ok(all) =>
      && |all| == |blocks| + |ends| && all[..|blocks|] == blocks
      && forall k | 0 <= k < |ends| :: Yields(lines, ends[k], Ok(all[|blocks| + k]))
    case Err(error) =>
      exists k | 0 <= k < |ends| ::
        Yields(lines, ends[k], Err(error)) && forall j | 0 <= j < k :: exists d :: Yields(lines, ends[j], Ok(d))
  }

  lemma ReadsOneMore(lines: seq<string>, e: nat, later: seq<nat>, blocks: seq<Bytes>, d: Bytes, result: Parsed)
    requires e < |lines| && (forall k | 0 <= k < |later| :: later[k] < |lines|)
    requires Yields(lines, e, Ok(d)) && Reads(lines, later, blocks + [d], result)
    ensures Reads(lines, [e] + later, blocks, result)
  {
    hide Yields;
    var ends := [e] + later;
    if result.Ok? {
      var all := result.value;
      assert all[|blocks|] == (blocks + [d])[|blocks|] == d;
      assert all[..|blocks|] == (blocks + [d])[..|blocks|] == blocks;
      forall k | 0 <= k < |ends|
        ensures Yields(lines, ends[k], Ok(all[|blocks| + k]))
      {
        if k > 0 {
          assert Yields(lines, later[k - 1], Ok(all[|blocks + [d]| + (k - 1)]));
        }
      }
    } else {
      var k :| 0 <= k < |later| && Yields(lines, later[k], Err(result.error)) &&
               forall j | 0 <= j < k :: exists d :: Yields(lines, later[j], Ok(d));
      assert ends[k + 1] == later[k];
      forall j | 0 <= j < k + 1
        ensures exists d :: Yields(lines, ends[j], Ok(d))
      {
        if j > 0 {
          assert ends[j] == later[j - 1];
        }
      }
    }
  }

  lemma {:induction false} MachineMeans(lines: seq<string>, i: nat, current: seq<string>, blocks: seq<Bytes>)
    requires i <= |lines| && Collected(lines, i, current)
    ensures Reads(lines, EndsFrom(lines, i), blocks, ParseFrom(lines[i..], current, blocks))
    decreases |lines| - i
  {
    hide Strip, Body, Collected, IsBody;
    if i < |lines| {
      assert lines[i..][1..] == lines[i + 1..];
      var later := EndsFrom(lines, i + 1);
      if Strip(lines[i]) == PEM_BEGIN {
        CollectedAtBegin(lines, i);
        MachineMeans(lines, i + 1, [PEM_BEGIN], blocks);
      } else if Strip(lines[i]) == PEM_END {
        var body := Body(current + [PEM_END]);
        BodyBetween(lines, i, current);
        assert Yields(lines, i, BlockOf(body));
        if BlockOf(body).Ok? {
          var d := BlockOf(body).value;
          CollectedNothing(lines, i);
          MachineMeans(lines, i + 1, [], blocks + [d]);
          ReadsOneMore(lines, i, later, blocks, d, ParseFrom(lines[i + 1..], [], blocks + [d]));
        } else {
          assert EndsFrom(lines, i)[0] == i;
        }
      } else {
        var next := if current == [] then [] else current + [lines[i]];
        if current == [] {
          NothingOpen(lines, i);
          CollectedNothing(lines, i);
        } else {
          CollectedMore(lines, i, current);
        }
        MachineMeans(lines, i + 1, next, blocks);
      }
    }
  }

  /**
   What a text parses to, on its lines alone: every END yields the bytes between it and the BEGIN before it, the first
   END that yields none is the refusal, and no other line matters.
   */
  lemma ParseMeans(lines: seq<string>)
    ensures Reads(lines, EndsFrom(lines, 0), [], ParseFrom(lines, [], []))
  {
    hide Strip;
    assert Collected(lines, 0, []);
    MachineMeans(lines, 0, [], []);
    assert lines[0..] == lines;
  }
}
