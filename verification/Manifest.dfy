/** The checksum manifest (kit/checksum/checksum.go): printing entries and reading them back. */
module Manifest {
  import opened Wrappers

  // ----- Text -----

  /** Unicode white space, as `strings.TrimSpace` sees it. */
  predicate IsSpace(c: char) {
    var n := c as int;
    9 <= n <= 13 || n == 32 || n == 0x85 || n == 0xA0 || n == 0x1680 || 0x2000 <= n <= 0x200A
    || n == 0x2028 || n == 0x2029 || n == 0x202F || n == 0x205F || n == 0x3000
  }

  function TrimLeft(s: string): (r: string)
    ensures |r| <= |s| && (|r| == |s| ==> r == s)
    ensures r != "" ==> !IsSpace(r[0])
    ensures s != "" && !IsSpace(s[0]) ==> r == s
  {
    if s != "" && IsSpace(s[0]) then TrimLeft(s[1..]) else s
  }

  function TrimRight(s: string): (r: string)
    ensures r <= s
    ensures r != "" ==> !IsSpace(r[|r| - 1])
    ensures s != "" && !IsSpace(s[|s| - 1]) ==> r == s
  {
    if s != "" && IsSpace(s[|s| - 1]) then TrimRight(s[..|s| - 1]) else s
  }

  function TrimSpace(s: string): (r: string)
    ensures |r| <= |s| && (|r| == |s| ==> r == s)
  {
    TrimRight(TrimLeft(s))
  }

  lemma {:induction false} TrimLeftKeepsEnd(s: string)
    ensures exists k: nat :: k <= |s| && TrimLeft(s) == s[k..]
  {
    if s != "" && IsSpace(s[0]) {
      TrimLeftKeepsEnd(s[1..]);
      var k: nat :| k <= |s[1..]| && TrimLeft(s[1..]) == s[1..][k..];
      assert s[1..][k..] == s[k + 1..];
    } else {
      assert s == s[0..];
    }
  }

  /** The characters that trimming takes, by code point. */
  ghost predicate White(c: char) {
    c as int in {9, 10, 11, 12, 13, 0x20, 0x85, 0xA0, 0x1680, 0x2000, 0x2001, 0x2002, 0x2003, 0x2004, 0x2005, 0x2006,
                 0x2007, 0x2008, 0x2009, 0x200A, 0x2028, 0x2029, 0x202F, 0x205F, 0x3000}
  }

  ghost predicate Blank(s: string) {
    forall c <- s :: White(c)
  }

  lemma SpaceIsWhite(c: char)
    ensures IsSpace(c) <==> White(c)
  {
  }

  /** What trimming takes off is blank. */
  lemma TrimSpaceSpelled(s: string) returns (before: string, after: string)
    ensures s == before + TrimSpace(s) + after && Blank(before) && Blank(after)
  {
    before := TrimmedLeft(s);
    after := TrimmedRight(TrimLeft(s));
    Regroup(before, TrimSpace(s), after);
  }

  lemma Regroup(a: string, b: string, c: string)
    ensures a + (b + c) == a + b + c
  {
  }

  /** What it leaves neither begins nor ends with a blank. */
  lemma TrimSpaceEnds(s: string)
    ensures var t := TrimSpace(s); t != "" ==> !White(t[0]) && !White(t[|t| - 1])
  {
    var t := TrimSpace(s);
    if t != "" {
      assert t[0] == TrimLeft(s)[0];
      SpaceIsWhite(t[0]);
      SpaceIsWhite(t[|t| - 1]);
    }
  }

  lemma {:induction false} TrimmedLeft(s: string) returns (before: string)
    ensures s == before + TrimLeft(s) && Blank(before)
  {
    if s != "" && IsSpace(s[0]) {
      before := TrimmedLeft(s[1..]);
      SpaceIsWhite(s[0]);
      before := [s[0]] + before;
    } else {
      before := "";
    }
  }

  lemma {:induction false} TrimmedRight(s: string) returns (after: string)
    ensures s == TrimRight(s) + after && Blank(after)
  {
    if s != "" && IsSpace(s[|s| - 1]) {
      after := TrimmedRight(s[..|s| - 1]);
      SpaceIsWhite(s[|s| - 1]);
      after := after + [s[|s| - 1]];
    } else {
      after := "";
    }
  }

  /** Trimming takes nothing out of the middle and adds nothing. */
  lemma TrimSpaceWithin(s: string, c: char)
    requires c in TrimSpace(s)
    ensures c in s
  {
    TrimLeftKeepsEnd(s);
    var t := TrimLeft(s);
    var k: nat :| k <= |s| && t == s[k..];
    var i :| 0 <= i < |TrimSpace(s)| && TrimSpace(s)[i] == c;
    assert t[i] == c && s[k + i] == c;
  }

  /** Where `c` first stands in `s`, or the length of `s`. */
  function Index(s: string, c: char): (i: nat)
    ensures i <= |s| && (forall j :: 0 <= j < i ==> s[j] != c) && (i < |s| ==> s[i] == c)
  {
    if s == "" || s[0] == c then 0 else 1 + Index(s[1..], c)
  }

  lemma IndexIs(s: string, c: char, i: nat)
    requires i <= |s| && (forall j :: 0 <= j < i ==> s[j] != c) && (i < |s| ==> s[i] == c)
    ensures Index(s, c) == i
  {
  }

  function DropCR(line: string): string {
    if line != "" && line[|line| - 1] == '\r' then line[..|line| - 1] else line
  }

  /** `bufio.ScanLines`: newlines end lines, and a last line needs none. */
  function Lines(text: string): seq<string>
    decreases |text|
  {
    if text == "" then []
    else
      var i := Index(text, '\n');
      if i == |text| then [DropCR(text)] else [DropCR(text[..i])] + Lines(text[i + 1..])
  }

  // ----- Entries -----

  datatype Entry = Entry(name: string, digest: string)

  const DIGEST_LENGTH: nat := 64

  const TWO_SPACES: string := "  "

  predicate LowerHex(c: char) {
    '0' <= c <= '9' || 'a' <= c <= 'f'
  }

  predicate IsHex(c: char) {
    LowerHex(c) || 'A' <= c <= 'F'
  }

  function LowerHexChar(c: char): char {
    if 'A' <= c <= 'F' then 'a' + (c - 'A') else c
  }

  function ToLower(digest: string): (r: string)
    ensures |r| == |digest| && forall i :: 0 <= i < |digest| ==> r[i] == LowerHexChar(digest[i])
  {
    seq(|digest|, i requires 0 <= i < |digest| => LowerHexChar(digest[i]))
  }

  predicate IsDigest(s: string) {
    |s| == DIGEST_LENGTH && forall c <- s :: LowerHex(c)
  }

  function Line(e: Entry): string {
    e.digest + TWO_SPACES + e.name
  }

  function Rendered(es: seq<Entry>): string {
    if es == [] then "" else Line(es[0]) + "\n" + Rendered(es[1..])
  }

  /** A line is the digest, two spaces and the name. */
  lemma RenderedSpelled(e: Entry, rest: seq<Entry>)
    ensures Rendered([e] + rest) == e.digest + "  " + e.name + "\n" + Rendered(rest)
    ensures Rendered([]) == ""
  {
    assert ([e] + rest)[1..] == rest;
  }

  method Render(es: seq<Entry>) returns (text: string)
    ensures text == Rendered(es)
  {
    text := "";
    for i := 0 to |es|
      invariant text + Rendered(es[i..]) == Rendered(es)
    {
      assert es[i..][1..] == es[i + 1..];
      assert text + (Line(es[i]) + "\n" + Rendered(es[i + 1..])) == text + (Line(es[i]) + "\n") + Rendered(es[i + 1..]);
      text := text + (Line(es[i]) + "\n");
    }
    assert text + "" == text;
  }

  // ----- Parsing -----

  datatype Fault = NoSeparator | NoName | NoDigest

  /** What one line means: nothing when it is blank, an entry, or a fault. */
  function ParseLine(line: string): Result<Option<Entry>, Fault> {
    ParseText(TrimSpace(line))
  }

  function ParseText(text: string): Result<Option<Entry>, Fault> {
    if text == "" then Ok(None)
    else
      var i := Index(text, ' ');
      if i == |text| then Err(NoSeparator)
      else
        var digest := text[..i];
        var rest := TrimSpace(text[i + 1..]);
        var name := if rest != "" && rest[0] == '*' then rest[1..] else rest;
        if name == "" then Err(NoName)
        else if !(forall c <- digest :: IsHex(c)) || |digest| != DIGEST_LENGTH then Err(NoDigest)
        else Ok(Some(Entry(name, ToLower(digest))))
  }

  /** A digest, spelled out: 64 hex digits of either case. */
  ghost predicate WholeDigest(digest: string) {
    |digest| == 64 && forall c <- digest :: '0' <= c <= '9' || 'a' <= c <= 'f' || 'A' <= c <= 'F'
  }

  /** `d` is `digest` with its capitals folded. */
  ghost predicate FoldOf(digest: string, d: string) {
    |d| == |digest| && forall i :: 0 <= i < |d| ==>
                         if 'A' <= digest[i] <= 'F' then d[i] as int == digest[i] as int + 32 else d[i] == digest[i]
  }

  lemma DigestSpelled(digest: string)
    ensures (forall c <- digest :: IsHex(c)) && |digest| == DIGEST_LENGTH <==> WholeDigest(digest)
    ensures FoldOf(digest, ToLower(digest))
  {
  }

  /** What a trimmed line means, by what stands before and after its first space. */
  lemma LineMeaning(line: string, digest: string, tail: string)
    requires TrimSpace(line) == digest + " " + tail && ' ' !in digest
    ensures var rest := TrimSpace(tail);
            var name := if rest != "" && rest[0] == '*' then rest[1..] else rest;
            && (name == "" ==> ParseLine(line) == Err(NoName))
            && (name != "" && !WholeDigest(digest) ==> ParseLine(line) == Err(NoDigest))
            && (name != "" && WholeDigest(digest) ==>
                  exists d :: ParseLine(line) == Ok(Some(Entry(name, d))) && FoldOf(digest, d))
  {
    var text := TrimSpace(line);
    FirstAt(text, digest, ' ', tail);
    assert text != "" && text[..|digest|] == digest && text[|digest| + 1..] == tail;
    DigestSpelled(digest);
  }

  lemma FirstAt(text: string, head: string, c: char, tail: string)
    requires text == head + [c] + tail && c !in head
    ensures Index(text, c) == |head|
    ensures text[..|head|] == head && text[|head| + 1..] == tail
  {
    assert text[|head|] == c && forall j :: 0 <= j < |head| ==> text[j] == head[j] && head[j] in head;
    IndexIs(text, c, |head|);
  }

  /** A blank line means nothing, and a line without a space in it is a fault. */
  lemma WordMeaning(line: string)
    requires ' ' !in TrimSpace(line)
    ensures ParseLine(line) == if TrimSpace(line) == "" then Ok(None) else Err(NoSeparator)
  {
    var text := TrimSpace(line);
    assert forall j :: 0 <= j < |text| ==> text[j] in text;
    IndexIs(text, ' ', |text|);
  }

  datatype ParseError = ParseError(line: nat, fault: Fault)

  method Parse(text: string) returns (r: Result<seq<Entry>, ParseError>)
    ensures r == Parsed(Lines(text), 1)
  {
    var entries: seq<Entry> := [];
    var lines := Lines(text);
    PrefixedNothing(Parsed(lines, 1));
    assert lines[0..] == lines;
    for i := 0 to |lines|
      invariant Parsed(lines, 1) == Prefixed(entries, Parsed(lines[i..], i + 1))
    {
      assert lines[i..][1..] == lines[i + 1..];
      var p := ParseLine(lines[i]);
      match p {
        case Err(fault) => return Err(ParseError(i + 1, fault));
        case Ok(None) =>
        case Ok(Some(e)) =>
          ghost var rest := Parsed(lines[i + 1..], i + 2);
          assert rest.Ok? ==> entries + ([e] + rest.value) == (entries + [e]) + rest.value;
          entries := entries + [e];
      }
    }
    assert entries + [] == entries;
    return Ok(entries);
  }

  function Prefixed(es: seq<Entry>, r: Result<seq<Entry>, ParseError>): Result<seq<Entry>, ParseError> {
    match r
    case Ok(more) => Ok(es + more)
    case Err(e) => Err(e)
  }

  lemma PrefixedNothing(r: Result<seq<Entry>, ParseError>)
    ensures Prefixed([], r) == r
  {
    if r.Ok? {
      assert [] + r.value == r.value;
    }
  }

  /** The entries of `lines`, the first of which has number `n`; or the first fault. */
  function Parsed(lines: seq<string>, n: nat): Result<seq<Entry>, ParseError> {
    if lines == [] then Ok([])
    else
      match ParseLine(lines[0])
      case Err(fault) => Err(ParseError(n, fault))
      case Ok(None) => Parsed(lines[1..], n + 1)
      case Ok(Some(e)) => Prefixed([e], Parsed(lines[1..], n + 1))
  }

  // ----- Every line counts -----

  function NonBlank(lines: seq<string>): seq<string> {
    if lines == [] then []
    else (if TrimSpace(lines[0]) == "" then [] else [lines[0]]) + NonBlank(lines[1..])
  }

  /** The `k`-th line means the `k`-th entry. */
  ghost predicate Mean(lines: seq<string>, es: seq<Entry>) {
    |lines| == |es| && forall k :: 0 <= k < |es| ==> ParseLine(lines[k]) == Ok(Some(es[k]))
  }

  /** An accepted text yields exactly one entry for each line that is not blank, in order. */
  lemma {:induction false} OneEntryPerLine(lines: seq<string>, n: nat)
    requires Parsed(lines, n).Ok?
    ensures Mean(NonBlank(lines), Parsed(lines, n).value)
  {
    if lines != [] {
      OneEntryPerLine(lines[1..], n + 1);
      var rest, es := NonBlank(lines[1..]), Parsed(lines[1..], n + 1).value;
      if TrimSpace(lines[0]) == "" {
        assert [] + rest == rest;
      } else {
        var e := ParseLine(lines[0]).value.value;
        assert NonBlank(lines) == [lines[0]] + rest && Parsed(lines, n).value == [e] + es;
        MeanMore(lines[0], e, rest, es);
      }
    }
  }

  lemma MeanMore(line: string, e: Entry, lines: seq<string>, es: seq<Entry>)
    requires ParseLine(line) == Ok(Some(e)) && Mean(lines, es)
    ensures Mean([line] + lines, [e] + es)
  {
  }

  // ----- Round trip -----

  /** Names that survive being written on a line and read back. */
  predicate Plain(name: string) {
    && name != "" && '\n' !in name
    && !IsSpace(name[0]) && !IsSpace(name[|name| - 1])
    && name[0] != '*'
  }

  lemma {:induction false} TrimRightOfSum(a: string, b: string)
    ensures TrimRight(a + b) == if TrimRight(b) == "" then TrimRight(a) else a + TrimRight(b)
  {
    if b == "" {
      assert a + b == a;
    } else {
      var init := b[..|b| - 1];
      assert (a + b)[..|a + b| - 1] == a + init;
      TrimRightOfSum(a, init);
    }
  }

  lemma TrailingSpace(s: string, c: char)
    requires IsSpace(c)
    ensures TrimSpace(s + [c]) == TrimSpace(s)
  {
    TrimLeftOfSum(s, [c]);
    assert [c][1..] == "" && TrimLeft([c]) == "";
    var x := TrimLeft(s);
    assert (x + [c])[..|x|] == x;
  }

  lemma DropCRIsTrimmed(line: string)
    ensures TrimSpace(DropCR(line)) == TrimSpace(line)
  {
    if DropCR(line) != line {
      var front := line[..|line| - 1];
      assert line == front + ['\r'];
      TrailingSpace(front, '\r');
    }
  }

  lemma {:induction false} TrimLeftOfSum(a: string, b: string)
    ensures TrimLeft(a + b) == if TrimLeft(a) == "" then TrimLeft(b) else TrimLeft(a) + b
  {
    if a == "" {
      assert a + b == b;
    } else {
      assert (a + b)[1..] == a[1..] + b;
      TrimLeftOfSum(a[1..], b);
    }
  }

  lemma LowerHexFixed(digest: string)
    requires IsDigest(digest)
    ensures ToLower(digest) == digest && !IsSpace(digest[0])
    ensures forall i :: 0 <= i < |digest| ==> digest[i] != ' '
    ensures forall c <- digest :: IsHex(c)
  {
    assert forall i :: 0 <= i < |digest| ==> digest[i] in digest;
  }

  lemma TrimTwoSpaces(digest: string)
    requires IsDigest(digest)
    ensures TrimRight(digest + TWO_SPACES) == digest
  {
    TrimRightOfSum(digest, TWO_SPACES);
    assert TWO_SPACES[..1] == " " && " "[..0] == "";
    assert digest[DIGEST_LENGTH - 1] in digest;
  }

  /** Trimming a printed line touches only its name. */
  lemma TrimLine(e: Entry)
    requires IsDigest(e.digest)
    ensures TrimSpace(Line(e)) ==
            if TrimRight(e.name) == "" then e.digest else e.digest + TWO_SPACES + TrimRight(e.name)
  {
    LowerHexFixed(e.digest);
    assert Line(e)[0] == e.digest[0];
    assert TrimLeft(Line(e)) == Line(e);
    TrimRightOfSum(e.digest + TWO_SPACES, e.name);
    TrimTwoSpaces(e.digest);
  }

  /** What the reader makes of a digest, two spaces and more. */
  lemma ParseAfterDigest(line: string, digest: string, tail: string)
    requires IsDigest(digest) && TrimSpace(line) == digest + TWO_SPACES + tail
    ensures ParseLine(line) == NameOnward(digest, TrimSpace(" " + tail))
  {
    LowerHexFixed(digest);
    assert digest + TWO_SPACES + tail == digest + " " + (" " + tail);
    FirstAt(TrimSpace(line), digest, ' ', " " + tail);
  }

  function NameOnward(digest: string, rest: string): Result<Option<Entry>, Fault> {
    var name := if rest != "" && rest[0] == '*' then rest[1..] else rest;
    if name == "" then Err(NoName) else Ok(Some(Entry(name, digest)))
  }

  /** What the reader makes of a printed line, for a name with something to read in it. */
  lemma ReadLine(e: Entry)
    requires IsDigest(e.digest) && TrimRight(e.name) != ""
    ensures ParseLine(Line(e)) == NameOnward(e.digest, TrimSpace(" " + TrimRight(e.name)))
  {
    TrimLine(e);
    ParseAfterDigest(Line(e), e.digest, TrimRight(e.name));
  }

  /** A printed line without a name is a digest alone, which is no entry. */
  lemma ReadBareDigest(e: Entry)
    requires IsDigest(e.digest) && TrimRight(e.name) == ""
    ensures ParseLine(Line(e)) == Err(NoSeparator)
  {
    LowerHexFixed(e.digest);
    TrimLine(e);
    assert e.digest[..|e.digest|] == e.digest;
    IndexIs(e.digest, ' ', |e.digest|);
  }

  /** One printed line reads back as its entry exactly when the name is plain. */
  lemma LineRoundTrip(e: Entry)
    requires IsDigest(e.digest) && '\n' !in e.name
    ensures ParseLine(Line(e)) == Ok(Some(e)) <==> Plain(e.name)
  {
    var right := TrimRight(e.name);
    if right == "" {
      ReadBareDigest(e);
    } else {
      ReadLine(e);
      SpaceThen(right);
      var rest := TrimSpace(" " + right);
      assert |rest| <= |right| <= |e.name|;
      assert |right| == |e.name| ==> right == e.name;
      if Plain(e.name) {
        assert rest == e.name;
      }
    }
  }

  lemma SpaceThen(s: string)
    ensures TrimSpace(" " + s) == TrimSpace(s)
    ensures TrimSpace(s) == s && s != "" ==> !IsSpace(s[0]) && !IsSpace(s[|s| - 1])
  {
    assert (" " + s)[1..] == s;
  }

  lemma FirstLine(line: string, rest: string)
    requires '\n' !in line
    ensures Lines(line + "\n" + rest) == [DropCR(line)] + Lines(rest)
  {
    var text := line + "\n" + rest;
    IndexIs(text, '\n', |line|);
    assert text[..|line|] == line && text[|line| + 1..] == rest;
  }

  /** A line ends at a newline, and gives up one carriage return before it. */
  lemma LineByLine(line: string, rest: string)
    requires '\n' !in line
    ensures Lines(line + "\n" + rest) ==
            [if |line| > 0 && line[|line| - 1] == '\r' then line[..|line| - 1] else line] + Lines(rest)
  {
    var text := line + "\n" + rest;
    FirstAt(text, line, '\n', rest);
  }

  /** A last line counts although no newline ends it. */
  lemma LastLine(line: string)
    requires '\n' !in line
    ensures Lines(line) ==
            if line == "" then []
            else [if |line| > 0 && line[|line| - 1] == '\r' then line[..|line| - 1] else line]
  {
    assert forall j :: 0 <= j < |line| ==> line[j] in line;
    IndexIs(line, '\n', |line|);
  }

  lemma {:induction false} LinesOfRendered(es: seq<Entry>)
    requires forall e <- es :: '\n' !in Line(e)
    ensures |Lines(Rendered(es))| == |es|
    ensures forall k :: 0 <= k < |es| ==> Lines(Rendered(es))[k] == DropCR(Line(es[k]))
  {
    if es != [] {
      var rest := Lines(Rendered(es[1..]));
      FirstLine(Line(es[0]), Rendered(es[1..]));
      LinesOfRendered(es[1..]);
      assert Lines(Rendered(es)) == [DropCR(Line(es[0]))] + rest;
      forall k | 0 <= k < |es| ensures Lines(Rendered(es))[k] == DropCR(Line(es[k])) {
        if k > 0 {
          assert rest[k - 1] == DropCR(Line(es[1..][k - 1]));
        }
      }
    }
  }

  lemma {:induction false} ParsedIsPointwise(lines: seq<string>, es: seq<Entry>, n: nat)
    requires |lines| == |es| && forall k :: 0 <= k < |es| ==> ParseLine(lines[k]) == Ok(Some(es[k]))
    ensures Parsed(lines, n) == Ok(es)
  {
    if es != [] {
      ParsedIsPointwise(lines[1..], es[1..], n + 1);
      assert [es[0]] + es[1..] == es;
    }
  }

  lemma {:induction false} LinesHaveNoNewline(text: string, k: nat)
    requires k < |Lines(text)|
    ensures '\n' !in Lines(text)[k]
    decreases |text|
  {
    var i := Index(text, '\n');
    assert text[..|text|] == text;
    assert '\n' !in text[..i] && '\n' !in DropCR(text[..i]);
    if k > 0 {
      LinesHaveNoNewline(text[i + 1..], k - 1);
    }
  }

  lemma {:induction false} NonBlankIsLine(lines: seq<string>, k: nat)
    requires k < |NonBlank(lines)|
    ensures NonBlank(lines)[k] in lines
  {
    var head: seq<string> := if TrimSpace(lines[0]) == "" then [] else [lines[0]];
    if k >= |head| {
      NonBlankIsLine(lines[1..], k - |head|);
    }
  }

  lemma NameIsFromLine(line: string, e: Entry)
    requires ParseLine(line) == Ok(Some(e))
    ensures forall c <- e.name :: c in line
    ensures IsDigest(e.digest)
  {
    var text := TrimSpace(line);
    var i := Index(text, ' ');
    var rest := TrimSpace(text[i + 1..]);
    forall c | c in e.name ensures c in line {
      assert c in rest;
      TrimSpaceWithin(text[i + 1..], c);
      assert c in text;
      TrimSpaceWithin(line, c);
    }
    HexLowers(text[..i]);
  }

  lemma HexLowers(digest: string)
    requires |digest| == DIGEST_LENGTH && forall c <- digest :: IsHex(c)
    ensures IsDigest(ToLower(digest))
  {
    forall k | 0 <= k < |digest| ensures LowerHex(ToLower(digest)[k]) {
      assert digest[k] in digest;
    }
  }

  /** What parsing returns never has a newline in a name, and always has a whole digest. */
  lemma {:induction false} ParsedNames(text: string, n: nat, k: nat)
    requires Parsed(Lines(text), n).Ok? && k < |Parsed(Lines(text), n).value|
    ensures '\n' !in Parsed(Lines(text), n).value[k].name && IsDigest(Parsed(Lines(text), n).value[k].digest)
  {
    var lines, es := Lines(text), Parsed(Lines(text), n).value;
    OneEntryPerLine(lines, n);
    NonBlankIsLine(lines, k);
    NameIsFromLine(NonBlank(lines)[k], es[k]);
    var j :| 0 <= j < |lines| && lines[j] == NonBlank(lines)[k];
    LinesHaveNoNewline(text, j);
  }

  lemma LineHasNoNewline(e: Entry)
    requires IsDigest(e.digest) && '\n' !in e.name
    ensures '\n' !in Line(e)
  {
    assert '\n' !in e.digest && '\n' !in TWO_SPACES;
  }

  lemma {:induction false} PrintedLines(es: seq<Entry>)
    requires forall k :: 0 <= k < |es| ==> IsDigest(es[k].digest) && '\n' !in es[k].name
    ensures |Lines(Rendered(es))| == |es|
    ensures forall k :: 0 <= k < |es| ==>
              (ParseLine(Lines(Rendered(es))[k]) == Ok(Some(es[k])) <==> Plain(es[k].name))
  {
    forall k | 0 <= k < |es| ensures '\n' !in Line(es[k]) {
      LineHasNoNewline(es[k]);
    }
    LinesOfRendered(es);
    forall k | 0 <= k < |es|
      ensures ParseLine(Lines(Rendered(es))[k]) == Ok(Some(es[k])) <==> Plain(es[k].name)
    {
      ParseDropsCR(Line(es[k]));
      LineRoundTrip(es[k]);
    }
  }

  lemma ParseDropsCR(line: string)
    ensures ParseLine(DropCR(line)) == ParseLine(line)
  {
    DropCRIsTrimmed(line);
  }

  /** A manifest reads back as the entries it was printed from exactly when every name is plain. */
  lemma {:induction false} ManifestRoundTrip(es: seq<Entry>)
    requires forall k :: 0 <= k < |es| ==> IsDigest(es[k].digest)
    ensures Parsed(Lines(Rendered(es)), 1) == Ok(es) <==> forall k :: 0 <= k < |es| ==> Plain(es[k].name)
  {
    var lines := Lines(Rendered(es));
    if Parsed(lines, 1) == Ok(es) {
      forall k | 0 <= k < |es| ensures '\n' !in es[k].name {
        ParsedNames(Rendered(es), 1, k);
      }
      PrintedLines(es);
      OneEntryPerLine(lines, 1);
      AllKept(lines);
    } else if forall k :: 0 <= k < |es| ==> Plain(es[k].name) {
      PrintedLines(es);
      ParsedIsPointwise(lines, es, 1);
    }
  }

  /** When nothing was dropped, the lines that are not blank are all the lines. */
  lemma {:induction false} AllKept(lines: seq<string>)
    ensures |NonBlank(lines)| <= |lines|
    ensures |NonBlank(lines)| == |lines| ==> NonBlank(lines) == lines
  {
    if lines != [] {
      AllKept(lines[1..]);
      assert [lines[0]] + lines[1..] == lines;
    }
  }

  /** Printing what was parsed and parsing it again changes nothing, when the names are plain. */
  lemma {:induction false} ReparseIsStable(text: string)
    requires Parsed(Lines(text), 1).Ok?
    requires forall k :: 0 <= k < |Parsed(Lines(text), 1).value| ==> Plain(Parsed(Lines(text), 1).value[k].name)
    ensures Parsed(Lines(Rendered(Parsed(Lines(text), 1).value)), 1) == Parsed(Lines(text), 1)
  {
    var es := Parsed(Lines(text), 1).value;
    forall k | 0 <= k < |es| ensures IsDigest(es[k].digest) {
      ParsedNames(text, 1, k);
    }
    ManifestRoundTrip(es);
  }
}
