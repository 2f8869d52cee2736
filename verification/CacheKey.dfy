/**
 * What the compile cache feeds to SHA-256 (cmd/lath/build.go, cmd/lath/replaces.go) and what a
 * composed cache key feeds to it (kit/hashtree/hashtree.go): each stream can be read back, so two
 * inputs that differ never hash the same bytes.
 */
module CacheKey {
  import opened Wrappers
  import opened Decimal
  import opened Sorting

  const NUL: string := "\0"

  predicate Clean(s: string) {
    '\0' !in s
  }

  // ----- NUL-terminated fields -----

  /** A stream that begins with field `f`. */
  function Put(f: string, rest: string): string {
    f + NUL + rest
  }

  function Field(s: string): Option<(string, string)> {
    if s == "" then None
    else if s[0] == '\0' then Some(("", s[1..]))
    else
      match Field(s[1..])
      case Some((head, tail)) => Some(([s[0]] + head, tail))
      case None => None
  }

  lemma {:induction false} FieldShrinks(s: string)
    ensures Field(s).Some? ==> |Field(s).value.1| < |s|
  {
    if s != "" && s[0] != '\0' {
      FieldShrinks(s[1..]);
    }
  }

  lemma {:induction false} FieldOfPut(f: string, rest: string)
    requires Clean(f)
    ensures Field(Put(f, rest)) == Some((f, rest))
  {
    var s := Put(f, rest);
    if f == "" {
      assert s[1..] == rest;
    } else {
      FieldOfPut(f[1..], rest);
      assert s[1..] == Put(f[1..], rest);
      assert f == [f[0]] + f[1..];
    }
  }

  lemma PutInjective(a: string, x: string, b: string, y: string)
    requires Put(a, x) == Put(b, y) && Clean(a) && Clean(b)
    ensures a == b && x == y
  {
    FieldOfPut(a, x);
    FieldOfPut(b, y);
  }

  predicate Numeral(s: string) {
    forall c <- s :: IsDigit(c)
  }

  lemma NumeralsClean(n: int)
    ensures Clean(DecInt(n))
  {
    var d := if n < 0 then Dec(-n) else Dec(n);
    assert forall c <- d :: IsDigit(c);
  }

  // ----- File frames -----

  datatype Source = Source(path: string, content: string)

  /** The frames of `fs`, followed by `tail`. */
  function Frames(fs: seq<Source>, tail: string): string {
    if fs == [] then tail
    else Put(fs[0].path, Put(Dec(|fs[0].content|), fs[0].content + Frames(fs[1..], tail)))
  }

  /** What one turn of a hashing loop appends, seen from the left and from the right. */
  lemma FrameWritten(h: string, f: Source, rest: string)
    ensures h + (f.path + NUL + Dec(|f.content|) + NUL) + f.content + rest
         == h + Put(f.path, Put(Dec(|f.content|), f.content + rest))
  {
  }

  /** The frames at the head of `s`, up to its end or a field that reads `mark`. */
  function ReadFrames(s: string, mark: string): Option<(seq<Source>, string)>
    decreases |s|
  {
    if s == "" then Some(([], ""))
    else
      FieldShrinks(s);
      match Field(s)
      case None => None
      case Some((path, rest)) =>
        if path == mark then Some(([], s))
        else
          FieldShrinks(rest);
          match Field(rest)
          case None => None
          case Some((length, body)) =>
            if !Numeral(length) || Number(length) > |body| then None
            else
              match ReadFrames(body[Number(length)..], mark)
              case None => None
              case Some((fs, tail)) => Some(([Source(path, body[..Number(length)])] + fs, tail))
  }

  ghost predicate Readable(fs: seq<Source>, mark: string) {
    forall f <- fs :: Clean(f.path) && f.path != mark
  }

  ghost predicate Ends(tail: string, mark: string) {
    tail == "" || exists rest :: tail == Put(mark, rest)
  }

  lemma ReadFrame(f: Source, rest: string, mark: string)
    requires Clean(f.path) && f.path != mark
    ensures ReadFrames(Put(f.path, Put(Dec(|f.content|), f.content + rest)), mark) ==
            match ReadFrames(rest, mark)
            case None => None
            case Some((fs, tail)) => Some(([f] + fs, tail))
  {
    var length, body := Dec(|f.content|), f.content + rest;
    FieldOfPut(f.path, Put(length, body));
    NumeralsClean(|f.content|);
    FieldOfPut(length, body);
    NumberOfDec(|f.content|);
    assert body[..|f.content|] == f.content && body[|f.content|..] == rest;
  }

  lemma {:induction false} ReadBackFrames(fs: seq<Source>, mark: string, tail: string)
    requires Readable(fs, mark) && Ends(tail, mark) && Clean(mark)
    ensures ReadFrames(Frames(fs, tail), mark) == Some((fs, tail))
  {
    if fs == [] {
      if tail != "" {
        var rest :| tail == Put(mark, rest);
        FieldOfPut(mark, rest);
      }
    } else {
      ReadBackFrames(fs[1..], mark, tail);
      ReadFrame(fs[0], Frames(fs[1..], tail), mark);
      assert fs == [fs[0]] + fs[1..];
    }
  }

  // ----- The definition's cache key: scan -----

  datatype Stamp = Stamp(size: int, modified: int)

  /** Everything a cached binary depends on. An empty `digest` means there are no local replaces. */
  datatype Identity = Identity(version: string, toolchain: string, exe: Option<Stamp>,
                               files: seq<Source>, digest: string)

  function Exe(exe: Option<Stamp>, rest: string): string {
    match exe
    case None => rest
    case Some(s) => Put("exe", Put(DecInt(s.size), Put(DecInt(s.modified), rest)))
  }

  function Footer(digest: string): string {
    if digest == "" then "" else Put("replaces", Put(digest, ""))
  }

  function Body(files: seq<Source>, digest: string): string {
    Frames(files, Footer(digest))
  }

  function Preimage(id: Identity): string {
    Put("lath", Put(id.version, Put(id.toolchain, Exe(id.exe, Body(id.files, id.digest)))))
  }

  /** The stream, byte for byte. */
  lemma PreimageSpelled(id: Identity)
    ensures Preimage(id) ==
            "lath\0" + id.version + "\0" + id.toolchain + "\0"
            + (match id.exe
               case None => ""
               case Some(s) => "exe\0" + DecInt(s.size) + "\0" + DecInt(s.modified) + "\0")
            + Frames(id.files, if id.digest == "" then "" else "replaces\0" + id.digest + "\0")
  {
    FooterSpelled(id.digest);
    HeaderSpelled(id.version, id.toolchain, id.exe, Body(id.files, id.digest));
  }

  lemma FooterSpelled(digest: string)
    ensures Footer(digest) == if digest == "" then "" else "replaces\0" + digest + "\0"
  {
  }

  lemma HeaderSpelled(version: string, toolchain: string, exe: Option<Stamp>, body: string)
    ensures Put("lath", Put(version, Put(toolchain, Exe(exe, body)))) ==
            "lath\0" + version + "\0" + toolchain + "\0"
            + (match exe
               case None => ""
               case Some(s) => "exe\0" + DecInt(s.size) + "\0" + DecInt(s.modified) + "\0")
            + body
  {
    assert "lath\0"[..4] == "lath";
    FieldsSpelled("lath\0", version, toolchain, Exe(exe, body));
    var header := "lath\0" + version + "\0" + toolchain + "\0";
    match exe {
      case None => assert header + "" + body == header + body;
      case Some(s) =>
        assert "exe\0"[..3] == "exe";
        FieldsSpelled("exe\0", DecInt(s.size), DecInt(s.modified), body);
        var stamp := "exe\0" + DecInt(s.size) + "\0" + DecInt(s.modified) + "\0";
        assert header + (stamp + body) == header + stamp + body;
    }
  }

  lemma FieldsSpelled(mark: string, a: string, b: string, rest: string)
    requires mark != "" && mark[|mark| - 1] == '\0'
    ensures Put(mark[..|mark| - 1], Put(a, Put(b, rest))) == mark + a + "\0" + b + "\0" + rest
  {
    var word := mark[..|mark| - 1];
    assert mark == word + "\0";
    assert mark + a + "\0" + b + "\0" + rest == word + "\0" + (a + "\0" + (b + "\0" + rest));
  }

  /** Each file is its path, its length in decimal and its content; the first two end with a NUL. */
  lemma FramesSpelled(f: Source, rest: seq<Source>, tail: string)
    ensures Frames([f] + rest, tail) == f.path + "\0" + Dec(|f.content|) + "\0" + f.content + Frames(rest, tail)
    ensures Frames([], tail) == tail
  {
    assert ([f] + rest)[1..] == rest;
  }

  /** Text fields hold no NUL, and no path reads like one of the markers. */
  ghost predicate Admissible(id: Identity) {
    && Clean(id.version) && Clean(id.toolchain) && Clean(id.digest)
    && forall f <- id.files :: Clean(f.path) && f.path != "exe" && f.path != "replaces"
  }

  /** The files and the footer never begin like an executable stamp. */
  lemma BodyIsNotStamp(files: seq<Source>, digest: string, rest: string)
    requires Readable(files, "exe")
    ensures Body(files, digest) != Put("exe", rest)
  {
    FieldOfPut("exe", rest);
    if files != [] {
      FieldOfPut(files[0].path, Put(Dec(|files[0].content|), files[0].content + Frames(files[1..], Footer(digest))));
    } else if digest != "" {
      FieldOfPut("replaces", Put(digest, ""));
    }
  }

  lemma ExeDecodes(a: Stamp, x: string, b: Stamp, y: string)
    requires Exe(Some(a), x) == Exe(Some(b), y)
    ensures a == b && x == y
  {
    NumeralsClean(a.size);
    NumeralsClean(a.modified);
    NumeralsClean(b.size);
    NumeralsClean(b.modified);
    var x', y' := Put(DecInt(a.modified), x), Put(DecInt(b.modified), y);
    PutInjective("exe", Put(DecInt(a.size), x'), "exe", Put(DecInt(b.size), y'));
    PutInjective(DecInt(a.size), x', DecInt(b.size), y');
    PutInjective(DecInt(a.modified), x, DecInt(b.modified), y);
    DecIntInjective(a.size, b.size);
    DecIntInjective(a.modified, b.modified);
  }

  lemma BodyDecodes(files: seq<Source>, digest: string, files': seq<Source>, digest': string)
    requires Readable(files, "replaces") && Readable(files', "replaces")
    requires Clean(digest) && Clean(digest')
    requires Body(files, digest) == Body(files', digest')
    ensures files == files' && digest == digest'
  {
    ReadBackFrames(files, "replaces", Footer(digest));
    ReadBackFrames(files', "replaces", Footer(digest'));
    assert Footer(digest) == Footer(digest');
    if digest != "" && digest' != "" {
      PutInjective("replaces", Put(digest, ""), "replaces", Put(digest', ""));
      PutInjective(digest, "", digest', "");
    }
  }

  /** Two definitions feed the hash the same bytes only if everything they depend on agrees. */
  lemma PreimageInjective(id: Identity, id': Identity)
    requires Admissible(id) && Admissible(id') && Preimage(id) == Preimage(id')
    ensures id == id'
  {
    var body, body' := Body(id.files, id.digest), Body(id'.files, id'.digest);
    var x, x' := Exe(id.exe, body), Exe(id'.exe, body');
    PutInjective("lath", Put(id.version, Put(id.toolchain, x)), "lath", Put(id'.version, Put(id'.toolchain, x')));
    PutInjective(id.version, Put(id.toolchain, x), id'.version, Put(id'.toolchain, x'));
    PutInjective(id.toolchain, x, id'.toolchain, x');
    ExeOrBody(id.exe, id.files, id.digest, id'.exe, id'.files, id'.digest);
    BodyDecodes(id.files, id.digest, id'.files, id'.digest);
  }

  /** Whether the stamp is present can be told from the bytes alone. */
  lemma ExeOrBody(exe: Option<Stamp>, files: seq<Source>, digest: string,
                  exe': Option<Stamp>, files': seq<Source>, digest': string)
    requires Readable(files, "exe") && Readable(files', "exe")
    requires Exe(exe, Body(files, digest)) == Exe(exe', Body(files', digest'))
    ensures exe == exe' && Body(files, digest) == Body(files', digest')
  {
    if exe.Some? && exe'.Some? {
      ExeDecodes(exe.value, Body(files, digest), exe'.value, Body(files', digest'));
    } else if exe.Some? {
      var rest := Put(DecInt(exe.value.modified), Body(files, digest));
      BodyIsNotStamp(files', digest', Put(DecInt(exe.value.size), rest));
    } else if exe'.Some? {
      var rest := Put(DecInt(exe'.value.modified), Body(files', digest'));
      BodyIsNotStamp(files, digest, Put(DecInt(exe'.value.size), rest));
    }
  }

  // ----- Which paths can occur -----

  const GENERATED_FILE_NAME: string := "zz_lath_generated.go"

  predicate HasSuffix(s: string, suffix: string) {
    |suffix| <= |s| && s[|s| - |suffix|..] == suffix
  }

  /** The slash-separated parts of a path relative to the definition root. */
  function Parts(path: string): (p: seq<string>)
    ensures p != []
  {
    if path == "" then [""]
    else
      var rest := Parts(path[1..]);
      if path[0] == '/' then [""] + rest else [[path[0]] + rest[0]] + rest[1..]
  }

  predicate Hidden(directory: string) {
    directory != "" && directory[0] in "._"
  }

  /** A file that `hashableFiles` keeps: a Go source or module file in no hidden directory. */
  predicate Hashable(path: string) {
    var parts := Parts(path);
    HashableIn(parts[..|parts| - 1], parts[|parts| - 1])
  }

  predicate HashableIn(dirs: seq<string>, name: string) {
    && (forall d <- dirs :: !Hidden(d))
    && name != GENERATED_FILE_NAME
    && (HasSuffix(name, ".go") || name == "go.mod" || name == "go.sum")
  }

  lemma {:induction false} NoSlashOnePart(path: string)
    requires '/' !in path
    ensures Parts(path) == [path]
  {
    if path != "" {
      NoSlashOnePart(path[1..]);
      assert [path[0]] + path[1..] == path;
    }
  }

  /** A file that `hashDirInto` folds in: also no test, and nothing under testdata or vendor. */
  predicate Counted(path: string) {
    var parts := Parts(path);
    CountedIn(parts[..|parts| - 1], parts[|parts| - 1])
  }

  predicate CountedIn(dirs: seq<string>, name: string) {
    && (forall d <- dirs :: !Hidden(d) && d != "testdata" && d != "vendor")
    && !HasSuffix(name, "_test.go")
    && (HasSuffix(name, ".go") || name == "go.mod" || name == "go.sum")
  }

  function PathOf(dirs: seq<string>, name: string): string {
    if dirs == [] then name else dirs[0] + "/" + PathOf(dirs[1..], name)
  }

  lemma {:induction false} PartsOfHead(head: string, rest: string)
    requires '/' !in head
    ensures Parts(head + "/" + rest) == [head] + Parts(rest)
  {
    var path := head + "/" + rest;
    if head == "" {
      assert path[1..] == rest;
    } else {
      assert path[1..] == head[1..] + "/" + rest;
      PartsOfHead(head[1..], rest);
      assert [head[0]] + head[1..] == head;
    }
  }

  lemma {:induction false} PartsOfPath(dirs: seq<string>, name: string)
    requires '/' !in name && forall d <- dirs :: '/' !in d
    ensures Parts(PathOf(dirs, name)) == dirs + [name]
  {
    if dirs == [] {
      NoSlashOnePart(name);
      assert dirs + [name] == [name];
    } else {
      PartsOfPath(dirs[1..], name);
      PartsOfHead(dirs[0], PathOf(dirs[1..], name));
      assert dirs + [name] == [dirs[0]] + (dirs[1..] + [name]);
    }
  }

  lemma NoneHidden(dirs: seq<string>)
    ensures (forall d <- dirs :: !Hidden(d)) <==> forall d <- dirs :: d != "" ==> d[0] != '.' && d[0] != '_'
  {
    assert "._"[0] == '.' && "._"[1] == '_';
  }

  /** Which files are kept, by their directories and their name. */
  lemma KeptSpelled(dirs: seq<string>, name: string)
    requires '/' !in name && forall d <- dirs :: '/' !in d
    ensures Hashable(PathOf(dirs, name)) <==>
            && ((|name| >= 3 && name[|name| - 3..] == ".go") || name == "go.mod" || name == "go.sum")
            && name != "zz_lath_generated.go"
            && forall d <- dirs :: d != "" ==> d[0] != '.' && d[0] != '_'
    ensures Counted(PathOf(dirs, name)) <==>
            && ((|name| >= 3 && name[|name| - 3..] == ".go") || name == "go.mod" || name == "go.sum")
            && !(|name| >= 8 && name[|name| - 8..] == "_test.go")
            && (forall d <- dirs :: d != "" ==> d[0] != '.' && d[0] != '_')
            && (forall d <- dirs :: d != "testdata" && d != "vendor")
  {
    KeptByParts(dirs, name);
    NoneHidden(dirs);
    Suffixes(name);
  }

  lemma KeptByParts(dirs: seq<string>, name: string)
    requires '/' !in name && forall d <- dirs :: '/' !in d
    ensures Hashable(PathOf(dirs, name)) == HashableIn(dirs, name)
    ensures Counted(PathOf(dirs, name)) == CountedIn(dirs, name)
  {
    PartsOfPath(dirs, name);
    assert (dirs + [name])[..|dirs|] == dirs;
  }

  lemma Suffixes(name: string)
    ensures HasSuffix(name, ".go") == (|name| >= 3 && name[|name| - 3..] == ".go")
    ensures HasSuffix(name, "_test.go") == (|name| >= 8 && name[|name| - 8..] == "_test.go")
  {
  }

  lemma NotASource(word: string)
    requires '/' !in word && |word| != 6 && (|word| < 3 || word[|word| - 3] != '.')
    ensures !Hashable(word) && !Counted(word)
  {
    NoSlashOnePart(word);
    assert |"go.mod"| == |"go.sum"| == 6;
    assert !HasSuffix(word, ".go") by {
      if |word| >= 3 {
        assert word[|word| - 3..][0] != ".go"[0];
      }
    }
  }

  /** The markers of the streams are not names the walks can produce. */
  lemma WalkedIsNoMarker(path: string)
    ensures Hashable(path) ==> path != "exe" && path != "replaces"
    ensures Counted(path) ==> path != "replace"
  {
    if path == "exe" {
      NotASource(path);
    } else if path == "replaces" {
      NotASource(path);
    } else if path == "replace" {
      NotASource(path);
    }
  }

  function Filtered(keep: string -> bool, entries: seq<string>): seq<string> {
    if entries == [] then []
    else
      Filtered(keep, entries[..|entries| - 1]) + if keep(entries[|entries| - 1]) then [entries[|entries| - 1]] else []
  }

  lemma {:induction false} FilteredMeaning(keep: string -> bool, entries: seq<string>)
    ensures forall p :: multiset(Filtered(keep, entries))[p] == if keep(p) then multiset(entries)[p] else 0
  {
    if entries != [] {
      var n := |entries| - 1;
      FilteredMeaning(keep, entries[..n]);
      assert entries == entries[..n] + [entries[n]];
    }
  }

  /** What `hashableFiles` keeps of the files it meets. */
  function Kept(entries: seq<string>): seq<string> {
    Filtered(Hashable, entries)
  }

  lemma KeptMeaning(entries: seq<string>)
    ensures forall p :: multiset(Kept(entries))[p] == if Hashable(p) then multiset(entries)[p] else 0
  {
    FilteredMeaning(Hashable, entries);
  }

  /** `hashableFiles`, over the files a walk of the definition meets. */
  method HashableFiles(entries: seq<string>) returns (out: seq<string>)
    ensures out == Kept(entries)
  {
    out := [];
    for i := 0 to |entries|
      invariant out == Kept(entries[..i])
    {
      if Hashable(entries[i]) {
        out := out + [entries[i]];
      }
      assert entries[..i + 1][..i] == entries[..i];
    }
    assert entries[..|entries|] == entries;
  }

  // ----- The scan itself -----

  /** The first file that cannot be read. */
  ghost predicate FirstMissing(files: seq<string>, disk: map<string, string>, path: string) {
    exists i :: 0 <= i < |files| && files[i] == path && path !in disk && forall k :: 0 <= k < i ==> files[k] in disk
  }

  datatype ScanError = NoDefinition | Unreadable(path: string) | BadReplaces

  function Sources(files: seq<string>, disk: map<string, string>): seq<Source>
    requires forall f <- files :: f in disk
  {
    seq(|files|, i requires 0 <= i < |files| => Source(files[i], disk[files[i]]))
  }

  /** The identity a successful scan of these entries describes. */
  function Scanned(version: string, toolchain: string, exe: Option<Stamp>, entries: seq<string>,
                   disk: map<string, string>, digest: string): Identity
    requires forall f <- Sort(Kept(entries)) :: f in disk
  {
    Identity(version, toolchain, exe, Sources(Sort(Kept(entries)), disk), digest)
  }

  /**
   * `scan`. `disk` holds what can be read; `digest` summarises the local replaces, or is none
   * when it could not be computed. The result is the byte stream the hash was fed.
   */
  method Scan(version: string, toolchain: string, exe: Option<Stamp>, entries: seq<string>,
              disk: map<string, string>, digest: Option<string>) returns (r: Result<string, ScanError>)
    ensures r == Err(NoDefinition) <==> Kept(entries) == []
    ensures r.Ok? <==> Kept(entries) != [] && (forall f <- Sort(Kept(entries)) :: f in disk) && digest.Some?
    ensures r.Ok? ==> r.value == Preimage(Scanned(version, toolchain, exe, entries, disk, digest.value))
    ensures r.Err? && r.error.Unreadable? ==> FirstMissing(Sort(Kept(entries)), disk, r.error.path)
    ensures r == Err(BadReplaces) <==>
            Kept(entries) != [] && (forall f <- Sort(Kept(entries)) :: f in disk) && digest.None?
  {
    var files := HashableFiles(entries);
    SortKeepsLength(files);
    if |files| == 0 {
      return Err(NoDefinition);
    }
    files := Sort(files);
    ghost var tail := if digest.None? then "" else Footer(digest.value);
    var h := HashHeader(version, toolchain, exe, Pending(files, disk, tail));
    r := HashSources(h, files, disk, tail);
    if r.Err? {
      return r;
    }
    if digest.None? {
      return Err(BadReplaces);
    }
    PendingIsFrames(files, disk, tail);
    if digest.value == "" {
      assert r.value + "" == r.value;
      return r;
    }
    FooterWritten(digest.value);
    return Ok(r.value + ("replaces" + NUL + digest.value + NUL));
  }

  lemma FooterWritten(digest: string)
    requires digest != ""
    ensures "replaces" + NUL + digest + NUL == Footer(digest)
  {
  }

  lemma SortKeepsLength(s: seq<string>)
    ensures |Sort(s)| == |s|
  {
    SortSorts(s);
    assert |Sort(s)| == |multiset(Sort(s))| == |multiset(s)|;
  }

  /** The part of the stream that describes the build environment. */
  method HashHeader(version: string, toolchain: string, exe: Option<Stamp>, ghost rest: string) returns (h: string)
    ensures h + rest == Put("lath", Put(version, Put(toolchain, Exe(exe, rest))))
  {
    h := "lath" + NUL + version + NUL + toolchain + NUL;
    ThreeFields("", "lath", version, toolchain, Exe(exe, rest));
    if exe.Some? {
      ThreeFields(h, "exe", DecInt(exe.value.size), DecInt(exe.value.modified), rest);
      h := h + ("exe" + NUL + DecInt(exe.value.size) + NUL + DecInt(exe.value.modified) + NUL);
    }
  }

  /** The file loop of `scan`, starting from what `h` already holds. */
  method HashSources(h: string, files: seq<string>, disk: map<string, string>, ghost tail: string)
    returns (r: Result<string, ScanError>)
    ensures r.Ok? <==> forall f <- files :: f in disk
    ensures r.Ok? ==> r.value + tail == h + Pending(files, disk, tail)
    ensures r.Err? ==> r.error.Unreadable? && FirstMissing(files, disk, r.error.path)
  {
    var h' := h;
    for i := 0 to |files|
      invariant forall k :: 0 <= k < i ==> files[k] in disk
      invariant h' + Pending(files[i..], disk, tail) == h + Pending(files, disk, tail)
    {
      var rel := files[i];
      if rel !in disk {
        return Err(Unreadable(rel));
      }
      var content := disk[rel];
      FrameWritten(h', Source(rel, content), Pending(files[i..][1..], disk, tail));
      h' := h' + (rel + NUL + Dec(|content|) + NUL);
      h' := h' + content;
      assert files[i..][1..] == files[i + 1..];
    }
    return Ok(h');
  }

  lemma ThreeFields(h: string, a: string, b: string, c: string, rest: string)
    ensures h + (a + NUL + b + NUL + c + NUL) + rest == h + Put(a, Put(b, Put(c, rest)))
  {
    assert a + NUL + b + NUL + c + NUL + rest == Put(a, Put(b, Put(c, rest)));
  }

  /** What the loop still has to write; files that cannot be read are left out. */
  ghost function Pending(files: seq<string>, disk: map<string, string>, tail: string): string {
    if files == [] then tail
    else if files[0] !in disk then ""
    else
      Put(files[0], Put(Dec(|disk[files[0]]|), disk[files[0]] + Pending(files[1..], disk, tail)))
  }

  lemma {:induction false} PendingIsFrames(files: seq<string>, disk: map<string, string>, tail: string)
    requires forall f <- files :: f in disk
    ensures Pending(files, disk, tail) == Frames(Sources(files, disk), tail)
  {
    if files != [] {
      PendingIsFrames(files[1..], disk, tail);
      assert Sources(files, disk)[1..] == Sources(files[1..], disk);
    }
  }

  ghost predicate AllClean(ss: seq<string>) {
    forall s <- ss :: Clean(s)
  }

  /** Scans that feed the hash the same bytes saw the same build inputs. */
  lemma {:induction false} ScanIdentifiesInputs(
      v: string, t: string, exe: Option<Stamp>, entries: seq<string>, disk: map<string, string>, digest: string,
      v': string, t': string, exe': Option<Stamp>, entries': seq<string>, disk': map<string, string>, digest': string)
    requires Clean(v) && Clean(t) && Clean(digest) && AllClean(entries)
    requires Clean(v') && Clean(t') && Clean(digest') && AllClean(entries')
    requires (forall f <- Sort(Kept(entries)) :: f in disk) && forall f <- Sort(Kept(entries')) :: f in disk'
    requires Preimage(Scanned(v, t, exe, entries, disk, digest))
             == Preimage(Scanned(v', t', exe', entries', disk', digest'))
    ensures v == v' && t == t' && exe == exe' && digest == digest'
    ensures Sort(Kept(entries)) == Sort(Kept(entries'))
    ensures forall f <- Sort(Kept(entries)) :: disk[f] == disk'[f]
  {
    var files, files' := Sort(Kept(entries)), Sort(Kept(entries'));
    KeptIsAdmissible(v, t, exe, entries, disk, digest);
    KeptIsAdmissible(v', t', exe', entries', disk', digest');
    PreimageInjective(Scanned(v, t, exe, entries, disk, digest), Scanned(v', t', exe', entries', disk', digest'));
    SameSources(files, disk, files', disk');
  }

  lemma SameSources(files: seq<string>, disk: map<string, string>, files': seq<string>, disk': map<string, string>)
    requires (forall f <- files :: f in disk) && forall f <- files' :: f in disk'
    requires Sources(files, disk) == Sources(files', disk')
    ensures files == files' && forall f <- files :: disk[f] == disk'[f]
  {
    assert |files| == |Sources(files, disk)| == |files'|;
    forall i | 0 <= i < |files| ensures files[i] == files'[i] && disk[files[i]] == disk'[files[i]] {
      assert Sources(files, disk)[i] == Sources(files', disk')[i];
    }
  }

  lemma SortMembers(s: seq<string>, x: string)
    ensures x in Sort(s) <==> x in s
  {
    SortSorts(s);
    assert x in Sort(s) <==> x in multiset(Sort(s));
    assert x in s <==> x in multiset(s);
  }

  lemma FilteredMembers(keep: string -> bool, entries: seq<string>, x: string)
    ensures x in Filtered(keep, entries) <==> x in entries && keep(x)
  {
    FilteredMeaning(keep, entries);
    assert x in Filtered(keep, entries) <==> x in multiset(Filtered(keep, entries));
    assert x in entries <==> x in multiset(entries);
  }

  lemma KeptIsAdmissible(v: string, t: string, exe: Option<Stamp>, entries: seq<string>, disk: map<string, string>,
                         digest: string)
    requires Clean(v) && Clean(t) && Clean(digest) && AllClean(entries)
    requires forall f <- Sort(Kept(entries)) :: f in disk
    ensures Admissible(Scanned(v, t, exe, entries, disk, digest))
  {
    var files := Sort(Kept(entries));
    forall i | 0 <= i < |files| ensures Clean(files[i]) && files[i] != "exe" && files[i] != "replaces" {
      SortMembers(Kept(entries), files[i]);
      FilteredMembers(Hashable, entries, files[i]);
      WalkedIsNoMarker(files[i]);
    }
  }

  /** The order in which the filesystem lists files does not reach the hash. */
  lemma WalkOrderForgotten(entries: seq<string>, entries': seq<string>)
    requires multiset(entries) == multiset(entries')
    ensures Sort(Kept(entries)) == Sort(Kept(entries'))
  {
    KeptMeaning(entries);
    KeptMeaning(entries');
    assert multiset(Kept(entries)) == multiset(Kept(entries'));
    SortForgetsOrder(Kept(entries), Kept(entries'));
  }

  // ----- Local replaces -----

  datatype Module = Module(dir: string, files: seq<Source>)

  function ModuleStream(ms: seq<Module>): string {
    if ms == [] then ""
    else Put("replace", Put(ms[0].dir, Frames(ms[0].files, ModuleStream(ms[1..]))))
  }

  /** Each module is the marker, its directory and its files. */
  lemma ModuleStreamSpelled(m: Module, rest: seq<Module>)
    ensures ModuleStream([m] + rest) == "replace\0" + m.dir + "\0" + Frames(m.files, ModuleStream(rest))
    ensures ModuleStream([]) == ""
  {
    assert ([m] + rest)[1..] == rest;
  }

  lemma TwoFields(h: string, a: string, b: string, rest: string)
    ensures h + (a + NUL + b + NUL) + rest == h + Put(a, Put(b, rest))
  {
    assert a + NUL + b + NUL + rest == Put(a, Put(b, rest));
  }

  /** A replaced directory: the files a walk of it meets, relative to it, and what can be read. */
  datatype Tree = Tree(dir: string, entries: seq<string>, disk: map<string, string>)

  /** The walk's filter in `hashDirInto`. */
  method CountedFiles(entries: seq<string>) returns (out: seq<string>)
    ensures out == Filtered(Counted, entries)
  {
    out := [];
    for i := 0 to |entries|
      invariant out == Filtered(Counted, entries[..i])
    {
      if Counted(entries[i]) {
        out := out + [entries[i]];
      }
      assert entries[..i + 1][..i] == entries[..i];
    }
    assert entries[..|entries|] == entries;
  }

  /** The files of a replaced directory that reach the hash, in the order they do. */
  function TreeFiles(t: Tree): seq<string> {
    Sort(Filtered(Counted, t.entries))
  }

  /** `hashDirInto` sorts whole paths and writes relative ones. */
  function Under(dir: string): string -> string {
    (rel: string) => dir + "/" + rel
  }

  lemma {:induction false} PrefixKeepsOrder(p: string, a: string, b: string)
    ensures AtMost(p + a, p + b) <==> AtMost(a, b)
  {
    if p == "" {
      assert p + a == a && p + b == b;
    } else {
      assert (p + a)[1..] == p[1..] + a && (p + b)[1..] == p[1..] + b;
      PrefixKeepsOrder(p[1..], a, b);
    }
  }

  /** Which comes to the same order as sorting the relative paths. */
  lemma WholePathsSortAlike(dir: string, s: seq<string>)
    ensures SortBy(Under(dir), s) == Sort(s)
  {
    var whole := SortBy(Under(dir), s);
    SortBySorts(Under(dir), s);
    SortBySorts(Self, s);
    forall i, j | 0 <= i < j < |whole| ensures AtMost(Self(whole[i]), Self(whole[j])) {
      assert AtMost(Under(dir)(whole[i]), Under(dir)(whole[j]));
      PrefixKeepsOrder(dir + "/", whole[i], whole[j]);
    }
    SortedUnique(Self, whole, Sort(s));
  }

  ghost predicate TreeReadable(t: Tree) {
    forall f <- TreeFiles(t) :: f in t.disk
  }

  ghost predicate TreesReadable(ts: seq<Tree>) {
    forall i :: 0 <= i < |ts| ==> TreeReadable(ts[i])
  }

  /** What a readable directory contributes. */
  ghost function Folded(t: Tree): Module
    requires TreeReadable(t)
  {
    Module(t.dir, Sources(TreeFiles(t), t.disk))
  }

  ghost function AllFolded(ts: seq<Tree>): seq<Module>
    requires TreesReadable(ts)
  {
    seq(|ts|, i requires 0 <= i < |ts| => Folded(ts[i]))
  }

  /** `hashDirInto`, starting from what `h` already holds. */
  method HashDirInto(h: string, t: Tree, ghost tail: string) returns (r: Result<string, ScanError>)
    ensures r.Ok? <==> TreeReadable(t)
    ensures r.Ok? ==> r.value + tail == h + Frames(Folded(t).files, tail)
    ensures r.Err? ==> r.error.Unreadable? && FirstMissing(TreeFiles(t), t.disk, r.error.path)
  {
    var files := CountedFiles(t.entries);
    WholePathsSortAlike(t.dir, files);
    files := SortBy(Under(t.dir), files);
    r := HashSources(h, files, t.disk, tail);
    if r.Ok? {
      PendingIsFrames(files, t.disk, tail);
    }
  }

  /** What is still to be written once the modules before `i` are. */
  ghost function Remaining(ts: seq<Tree>, i: nat): string
    requires i <= |ts|
  {
    if TreesReadable(ts) then ModuleStream(AllFolded(ts)[i..]) else ""
  }

  lemma RemainingNext(ts: seq<Tree>, i: nat)
    requires i < |ts| && TreesReadable(ts)
    ensures Remaining(ts, i) == Put("replace", Put(ts[i].dir, Frames(Folded(ts[i]).files, Remaining(ts, i + 1))))
  {
    var ms := AllFolded(ts);
    assert ms[i..][1..] == ms[i + 1..] && ms[i..][0] == Folded(ts[i]);
  }

  /** The bytes `localReplaceHash` feeds its hash, directory by directory. */
  method HashModules(ts: seq<Tree>) returns (r: Result<string, ScanError>)
    ensures r.Ok? <==> TreesReadable(ts)
    ensures r.Ok? ==> r.value == ModuleStream(AllFolded(ts))
    ensures r.Err? ==> r.error.Unreadable? && exists i: nat ::
                         FirstUnreadable(ts, i) && FirstMissing(TreeFiles(ts[i]), ts[i].disk, r.error.path)
  {
    var h := "";
    assert TreesReadable(ts) ==> AllFolded(ts)[0..] == AllFolded(ts);
    for i := 0 to |ts|
      invariant forall k :: 0 <= k < i ==> TreeReadable(ts[k])
      invariant TreesReadable(ts) ==> h + Remaining(ts, i) == ModuleStream(AllFolded(ts))
    {
      ghost var rest := Remaining(ts, i + 1);
      if TreesReadable(ts) {
        RemainingNext(ts, i);
        TwoFields(h, "replace", ts[i].dir, Frames(Folded(ts[i]).files, rest));
      }
      h := h + ("replace" + NUL + ts[i].dir + NUL);
      r := HashDirInto(h, ts[i], rest);
      if r.Err? {
        assert FirstUnreadable(ts, i);
        return r;
      }
      h := r.value;
    }
    assert h + "" == h;
    return Ok(h);
  }

  ghost predicate FirstUnreadable(ts: seq<Tree>, i: nat) {
    i < |ts| && !TreeReadable(ts[i]) && forall k :: 0 <= k < i ==> TreeReadable(ts[k])
  }

  ghost predicate ModulesReadable(ms: seq<Module>) {
    forall m <- ms :: Clean(m.dir) && Readable(m.files, "replace")
  }

  /** Two lists of replaced modules feed the hash the same bytes only if they are the same list. */
  lemma {:induction false} ModuleStreamInjective(ms: seq<Module>, ms': seq<Module>)
    requires ModulesReadable(ms) && ModulesReadable(ms') && ModuleStream(ms) == ModuleStream(ms')
    ensures ms == ms'
  {
    if ms != [] && ms' != [] {
      var rest, rest' := ModuleStream(ms[1..]), ModuleStream(ms'[1..]);
      OneModule(ms[0], rest, ms'[0], rest');
      ModuleStreamInjective(ms[1..], ms'[1..]);
      assert ms == [ms[0]] + ms[1..] && ms' == [ms'[0]] + ms'[1..];
    }
  }

  ghost predicate TreesClean(ts: seq<Tree>) {
    forall t <- ts :: Clean(t.dir) && AllClean(t.entries)
  }

  lemma FoldedIsReadable(t: Tree)
    requires TreeReadable(t) && AllClean(t.entries)
    ensures Readable(Folded(t).files, "replace")
  {
    var files := TreeFiles(t);
    forall i | 0 <= i < |files| ensures Clean(files[i]) && files[i] != "replace" {
      SortMembers(Filtered(Counted, t.entries), files[i]);
      FilteredMembers(Counted, t.entries, files[i]);
      WalkedIsNoMarker(files[i]);
    }
  }

  /** Lists of replaced directories that feed the hash the same bytes hold the same files, dir by dir. */
  lemma {:induction false} ReplacesIdentifyInputs(ts: seq<Tree>, ts': seq<Tree>)
    requires TreesReadable(ts) && TreesReadable(ts') && TreesClean(ts) && TreesClean(ts')
    requires ModuleStream(AllFolded(ts)) == ModuleStream(AllFolded(ts'))
    ensures |ts| == |ts'|
    ensures forall i :: 0 <= i < |ts| ==> SameTree(ts[i], ts'[i])
  {
    FoldedModulesReadable(ts);
    FoldedModulesReadable(ts');
    ModuleStreamInjective(AllFolded(ts), AllFolded(ts'));
    assert |ts| == |AllFolded(ts)| == |ts'|;
    forall i | 0 <= i < |ts| ensures SameTree(ts[i], ts'[i]) {
      assert AllFolded(ts)[i] == AllFolded(ts')[i];
      SameSources(TreeFiles(ts[i]), ts[i].disk, TreeFiles(ts'[i]), ts'[i].disk);
    }
  }

  lemma FoldedModulesReadable(ts: seq<Tree>)
    requires TreesReadable(ts) && TreesClean(ts)
    ensures ModulesReadable(AllFolded(ts))
  {
    forall i | 0 <= i < |ts| ensures Clean(ts[i].dir) && Readable(Folded(ts[i]).files, "replace") {
      assert ts[i] in ts;
      FoldedIsReadable(ts[i]);
    }
  }

  /** The same directory, with the same files that count and the same contents. */
  ghost predicate SameTree(t: Tree, t': Tree)
    requires TreeReadable(t) && TreeReadable(t')
  {
    t.dir == t'.dir && TreeFiles(t) == TreeFiles(t') && forall f <- TreeFiles(t) :: t.disk[f] == t'.disk[f]
  }

  lemma OneModule(m: Module, rest: string, m': Module, rest': string)
    requires Clean(m.dir) && Readable(m.files, "replace") && Ends(rest, "replace")
    requires Clean(m'.dir) && Readable(m'.files, "replace") && Ends(rest', "replace")
    requires Put("replace", Put(m.dir, Frames(m.files, rest))) == Put("replace", Put(m'.dir, Frames(m'.files, rest')))
    ensures m == m' && rest == rest'
  {
    var body, body' := Frames(m.files, rest), Frames(m'.files, rest');
    PutInjective("replace", Put(m.dir, body), "replace", Put(m'.dir, body'));
    PutInjective(m.dir, body, m'.dir, body');
    ReadBackFrames(m.files, "replace", rest);
    ReadBackFrames(m'.files, "replace", rest');
  }

  // ----- hashtree.Hasher -----

  /** The frames of a list of strings; a value may hold anything, NUL included. */
  function StringStream(values: seq<string>): string {
    if values == [] then ""
    else Put(Dec(|values[0]|), Put(values[0], StringStream(values[1..])))
  }

  /** Each value is its length in decimal and itself, and both end with a NUL. */
  lemma StringStreamSpelled(v: string, rest: seq<string>)
    ensures StringStream([v] + rest) == Dec(|v|) + "\0" + v + "\0" + StringStream(rest)
    ensures StringStream([]) == ""
  {
    assert ([v] + rest)[1..] == rest;
  }

  lemma {:induction false} StringStreamAppend(a: seq<string>, v: string)
    ensures StringStream(a + [v]) == StringStream(a) + StringStream([v])
  {
    if a == [] {
      assert a + [v] == [v] && "" + StringStream([v]) == StringStream([v]);
    } else {
      StringStreamAppend(a[1..], v);
      assert (a + [v])[1..] == a[1..] + [v];
      PutAppend(a[0], StringStream(a[1..]), StringStream([v]));
      PutAppend(Dec(|a[0]|), Put(a[0], StringStream(a[1..])), StringStream([v]));
    }
  }

  lemma StringStreamNext(h: string, values: seq<string>, i: nat)
    requires i < |values|
    ensures h + StringStream(values[..i + 1]) == h + StringStream(values[..i]) + StringStream([values[i]])
  {
    StringStreamAppend(values[..i], values[i]);
    assert values[..i + 1] == values[..i] + [values[i]];
  }

  lemma PutAppend(f: string, x: string, y: string)
    ensures Put(f, x) + y == Put(f, x + y)
  {
  }

  lemma SplitAt(a: string, x: string, b: string, y: string)
    requires Put(a, x) == Put(b, y) && |a| == |b|
    ensures a == b && x == y
  {
    assert Put(a, x)[..|a|] == a && Put(b, y)[..|b|] == b;
    assert Put(a, x)[|a| + 1..] == x && Put(b, y)[|b| + 1..] == y;
  }

  /** Two key lists feed the hash the same bytes only if they are the same list. */
  lemma {:induction false} StringStreamInjective(a: seq<string>, b: seq<string>)
    requires StringStream(a) == StringStream(b)
    ensures a == b
  {
    if a != [] && b != [] {
      var x, y := Put(a[0], StringStream(a[1..])), Put(b[0], StringStream(b[1..]));
      NumeralsClean(|a[0]|);
      NumeralsClean(|b[0]|);
      PutInjective(Dec(|a[0]|), x, Dec(|b[0]|), y);
      DecInjective(|a[0]|, |b[0]|);
      SplitAt(a[0], StringStream(a[1..]), b[0], StringStream(b[1..]));
      StringStreamInjective(a[1..], b[1..]);
      assert a == [a[0]] + a[1..] && b == [b[0]] + b[1..];
    }
  }

  /** What goes before a file's content. */
  function PathFrame(path: string): string {
    StringStream(["file:" + path])
  }

  lemma PathFrameSpelled(path: string)
    ensures PathFrame(path) == Dec(5 + |path|) + "\0" + ("file:" + path) + "\0"
  {
    OneString("file:" + path);
    assert |"file:" + path| == 5 + |path|;
  }

  lemma OneString(v: string)
    ensures StringStream([v]) == Dec(|v|) + "\0" + v + "\0"
  {
    StringStreamSpelled(v, []);
    assert [v] + [] == [v];
    assert Dec(|v|) + "\0" + v + "\0" + "" == Dec(|v|) + "\0" + v + "\0";
  }

  lemma PathFrameInjective(p: string, x: string, q: string, y: string)
    requires PathFrame(p) + x == PathFrame(q) + y
    ensures p == q && x == y
  {
    var a, b := "file:" + p, "file:" + q;
    PathFrameIsPut(p, x);
    PathFrameIsPut(q, y);
    NumeralsClean(|a|);
    NumeralsClean(|b|);
    PutInjective(Dec(|a|), Put(a, x), Dec(|b|), Put(b, y));
    DecInjective(|a|, |b|);
    SplitAt(a, x, b, y);
    assert a[5..] == p && b[5..] == q;
  }

  lemma PathFrameIsPut(p: string, x: string)
    ensures PathFrame(p) + x == Put(Dec(|"file:" + p|), Put("file:" + p, x))
  {
    var a := "file:" + p;
    var none: seq<string> := [];
    assert StringStream(none) == "" && [a][1..] == none;
    assert PathFrame(p) == Put(Dec(|a|), Put(a, ""));
    assert "" + x == x;
    PutAppend(a, "", x);
    PutAppend(Dec(|a|), Put(a, ""), x);
  }

  /** What `OfFiles` feeds the hash: each path is framed, its content is not. */
  function FileStream(files: seq<Source>): string {
    if files == [] then ""
    else PathFrame(files[0].path) + files[0].content + FileStream(files[1..])
  }

  /** So file lists, unlike string lists, can collide: one file can hold another's frame. */
  lemma FilesCanCollide(a: Source, b: Source, rest: seq<Source>)
    ensures var merged := Source(a.path, a.content + PathFrame(b.path) + b.content);
            FileStream([a, b] + rest) == FileStream([merged] + rest) && [a, b] + rest != [merged] + rest
  {
    var merged := Source(a.path, a.content + PathFrame(b.path) + b.content);
    var two, one := [a, b] + rest, [merged] + rest;
    assert two[1..] == [b] + rest && ([b] + rest)[1..] == rest && one[1..] == rest;
    var f, g, t := PathFrame(a.path), PathFrame(b.path), FileStream(rest);
    assert FileStream(two) == f + a.content + (g + b.content + t);
    assert FileStream(one) == f + (a.content + g + b.content) + t;
    Reassociate(f, a.content, g, b.content, t);
    assert |two| != |one|;
  }

  lemma Reassociate(a: string, b: string, c: string, d: string, e: string)
    ensures a + b + (c + d + e) == a + (b + c + d) + e
  {
  }

  /** A content somewhere in which the frame of a path can be read. */
  ghost predicate HoldsFrame(content: string) {
    exists x, path, y :: FrameBetween(content, x, path, y)
  }

  predicate FrameBetween(content: string, x: string, path: string, y: string) {
    content == x + PathFrame(path) + y
  }

  /** Another list feeds the hash the same bytes. */
  ghost predicate HasDouble(fs: seq<Source>) {
    exists gs :: gs != fs && FileStream(gs) == FileStream(fs)
  }

  /** Only a single file is safe, and only when no frame can be read in its content; or no file at all. */
  lemma FilesCollideIff(fs: seq<Source>)
    ensures HasDouble(fs) <==> |fs| >= 2 || (|fs| == 1 && HoldsFrame(fs[0].content))
  {
    if |fs| >= 2 {
      FilesCanCollide(fs[0], fs[1], fs[2..]);
      assert fs == [fs[0], fs[1]] + fs[2..];
    } else if |fs| == 1 && HoldsFrame(fs[0].content) {
      var x, path, y :| FrameBetween(fs[0].content, x, path, y);
      FilesCanCollide(Source(fs[0].path, x), Source(path, y), []);
      assert fs == [fs[0]] + [];
    } else {
      forall gs | FileStream(gs) == FileStream(fs) ensures gs == fs {
        if gs != [] {
          FirstFile(gs);
          StreamOfOne(fs[0]);
          assert fs == [fs[0]];
          OneFileAlone(fs[0], gs);
        } else if fs != [] {
          FirstFile(fs);
        }
      }
    }
  }

  lemma FirstFile(fs: seq<Source>)
    requires fs != []
    ensures FileStream(fs) == PathFrame(fs[0].path) + (fs[0].content + FileStream(fs[1..])) != ""
  {
    assert PathFrame(fs[0].path) != "";
  }

  lemma FilesHoldFrame(x: string, fs: seq<Source>)
    requires fs != []
    ensures HoldsFrame(x + FileStream(fs))
  {
    var y := fs[0].content + FileStream(fs[1..]);
    FirstFile(fs);
    assert x + (PathFrame(fs[0].path) + y) == x + PathFrame(fs[0].path) + y;
    assert FrameBetween(x + FileStream(fs), x, fs[0].path, y);
  }

  /** A list with the stream of one file is that file, or the file holds the frame of the second in it. */
  lemma {:induction false} OneFileAlone(f: Source, gs: seq<Source>)
    requires gs != [] && FileStream(gs) == PathFrame(f.path) + f.content
    ensures gs == [f] || HoldsFrame(f.content)
  {
    FirstFile(gs);
    PathFrameInjective(gs[0].path, gs[0].content + FileStream(gs[1..]), f.path, f.content);
    if gs[1..] != [] {
      FilesHoldFrame(gs[0].content, gs[1..]);
    } else {
      assert gs[0].content + "" == gs[0].content;
      assert gs == [gs[0]];
    }
  }

  lemma {:induction false} StreamOfOne(f: Source)
    ensures FileStream([f]) == PathFrame(f.path) + f.content
  {
    var none: seq<Source> := [];
    assert [f][1..] == none && FileStream(none) == "";
    assert PathFrame(f.path) + f.content + "" == PathFrame(f.path) + f.content;
  }

  /** What opening and copying a file gives; a copy may break off after some bytes. */
  datatype Opened = Missing | Whole(bytes: string) | Broken(bytes: string)

  class Hasher {
    var h: string
    var err: Option<string>

    constructor ()
      ensures h == "" && err == None
    {
      h, err := "", None;
    }

    method Write(s: string)
      modifies this
      ensures err == old(err)
      ensures h == old(h) + if err.None? then StringStream([s]) else ""
    {
      if err.Some? {
        return;
      }
      h := h + Dec(|s|);
      h := h + NUL;
      h := h + s;
      h := h + NUL;
      assert StringStream([s]) == Dec(|s|) + NUL + s + NUL;
    }

    method AddString(values: seq<string>)
      modifies this
      ensures err == old(err)
      ensures h == old(h) + if err.None? then StringStream(values) else ""
    {
      for i := 0 to |values|
        invariant err == old(err)
        invariant h == old(h) + if err.None? then StringStream(values[..i]) else ""
      {
        StringStreamNext(old(h), values, i);
        Write(values[i]);
      }
      assert values[..|values|] == values;
    }

    /** `AddFile`. The first error sticks; what was read before it has been fed to the hash. */
    method AddFile(path: string, file: Opened)
      modifies this
      ensures err == if old(err).Some? then old(err) else if file.Whole? then None else Some(path)
      ensures h == if old(err).Some? then old(h)
                   else old(h) + PathFrame(path) + if file.Missing? then "" else file.bytes
    {
      if err.Some? {
        return;
      }
      Write("file:" + path);
      if file.Missing? {
        err := Some(path);
        assert h + "" == h;
        return;
      }
      h := h + file.bytes;
      if file.Broken? {
        err := Some(path);
      }
    }
  }
}
