/**
 * The parsers of get_info, each as a function of the text its source would
 * produce: /etc/os-release, the board-name file, /proc/cpuinfo, the output of
 * `free -m`, of `lspci` and of `xwininfo`, and the SHELL variable. The files
 * and commands themselves are not modelled: each parser receives the chunks
 * fgets would return for them.
 */
module Probes {
  import opened Wrappers
  import opened CStrings
  import opened Stdio
  import Theme

  /** The literal parts of the formats below have no white space in them. */
  lemma LiteralsHaveNoSpace()
    ensures NoSpace("ID=") && NoSpace("ID=\"")
    ensures NoSpace("model") && NoSpace("name") && NoSpace(":")
    ensures NoSpace("Mem:") && NoSpace("Width:") && NoSpace("Height:")
  {
  }

  // ------------------------------------------------------------------
  // /etc/os-release: `while (fgets(...)) if (sscanf(line, "\nID=\"%s\"", ...) ||
  // sscanf(line, "\nID=%s", ...)) break;`

  /** `\nID="%s"`: the newline that starts the format is a white-space directive. */
  const QuotedIdFormat := [Space] + (Literal("ID=\"") + [Word, Lit('"')])
  /** `\nID=%s`. */
  const IdFormat := [Space] + (Literal("ID=") + [Word])

  /** sscanf with `\nID="%s"`, by how the line meets the literal. */
  function QuotedIdScan(line: string): Scanned {
    AfterKey(SkipSpace(line), "ID=\"", [Word, Lit('"')])
  }

  /** sscanf with `\nID=%s`. */
  function PlainIdScan(line: string): Scanned {
    AfterKey(SkipSpace(line), "ID=", [Word])
  }

  lemma IdScansAreSscanf(line: string)
    ensures Sscanf(line, QuotedIdFormat) == QuotedIdScan(line)
    ensures Sscanf(line, IdFormat) == PlainIdScan(line)
  {
    LiteralsHaveNoSpace();
    RunAfterSpace(line, Literal("ID=\"") + [Word, Lit('"')], []);
    RunAfterKey("ID=\"", SkipSpace(line), [Word, Lit('"')]);
    RunAfterSpace(line, Literal("ID=") + [Word], []);
    RunAfterKey("ID=", SkipSpace(line), [Word]);
  }

  /** Whether a chunk stops the search (either sscanf returning non-zero), and what
      the sscanf that stopped it stored into version_name. */
  function IdScan(line: string): (bool, Option<string>) {
    var quoted := QuotedIdScan(line);
    if quoted.ret != 0 then (true, StoredText(quoted))
    else
      var plain := PlainIdScan(line);
      (plain.ret != 0, StoredText(plain))
  }

  /** version_name after the loop over the chunks of os-release. */
  function OsReleaseId(chunks: seq<string>, version: string): string {
    if chunks == [] then version
    else
      var scan := IdScan(chunks[0]);
      if scan.0 then scan.1.GetOr(version) else OsReleaseId(chunks[1..], version)
  }

  method ReadOsRelease(chunks: seq<string>, versionName: string) returns (version: string)
    ensures version == OsReleaseId(chunks, versionName)
  {
    version := versionName;
    var i := 0;
    while i < |chunks|
      invariant i <= |chunks|
      invariant OsReleaseId(chunks[i..], versionName) == OsReleaseId(chunks, versionName)
    {
      assert chunks[i..][0] == chunks[i] && chunks[i..][1..] == chunks[i + 1..];
      IdScansAreSscanf(chunks[i]);
      var quoted := Sscanf(chunks[i], QuotedIdFormat);
      if quoted.ret != 0 {
        version := StoredText(quoted).GetOr(version);
        return;
      }
      var plain := Sscanf(chunks[i], IdFormat);
      if plain.ret != 0 {
        version := StoredText(plain).GetOr(version);
        return;
      }
      i := i + 1;
    }
  }

  /** `ID=<id>` stops the search and stores the id. */
  lemma IdLine(id: string, rest: string)
    requires id != [] && NoSpace(id) && id[0] != '"' && rest != [] && IsSpace(rest[0])
    ensures IdScan("ID=" + id + rest) == (true, Some(id))
  {
    var line := "ID=" + id + rest;
    QuotedIdMisses(line);
    PlainIdReads(id, rest);
  }

  lemma QuotedIdMisses(line: string)
    requires |line| > 4 && line[..3] == "ID=" && line[3] != '"'
    ensures QuotedIdScan(line) == Scanned(0, [])
  {
    assert SkipSpace(line) == line by { assert line[0] == line[..3][0]; }
    assert !("ID=\"" <= line);
  }

  lemma PlainIdReads(id: string, rest: string)
    requires id != [] && NoSpace(id) && rest != [] && IsSpace(rest[0])
    ensures PlainIdScan("ID=" + id + rest) == Scanned(1, [Text(id)])
  {
    var t := id + rest;
    assert "ID=" + id + rest == "ID=" + t;
    NothingToSkip("ID=" + t);
    AfterKeyPrefix("ID=", t, [Word]);
    WordThen(id, rest, [], []);
    assert [Word] + [] == [Word];
  }

  /** `ID="<id>"` stops the search and stores the id together with its closing
      quote, which %s reads as part of the word. */
  lemma QuotedIdLine(id: string, rest: string)
    requires id != [] && NoSpace(id) && rest != [] && IsSpace(rest[0])
    ensures IdScan("ID=\"" + id + "\"" + rest) == (true, Some(id + "\""))
  {
    var word := id + "\"";
    var t := word + rest;
    var line := "ID=\"" + t;
    assert "ID=\"" + id + "\"" + rest == line;
    assert SkipSpace(line) == line;
    AfterKeyPrefix("ID=\"", t, [Word, Lit('"')]);
    QuotedWord(id, rest);
  }

  /** `%s"` on a word followed by white space: the word, with the quote that ends it,
      is stored, and the missing closing quote only stops the scan. */
  lemma QuotedWord(id: string, rest: string)
    requires NoSpace(id) && rest != [] && IsSpace(rest[0])
    ensures Run(id + "\"" + rest, [Word, Lit('"')], []) == Scanned(1, [Text(id + "\"")])
  {
    var word := id + "\"";
    assert NoSpace(word);
    WordThen(word, rest, [Lit('"')], []);
  }

  /** A chunk of white space only (an empty line) runs out of input before the first
      conversion: sscanf returns EOF, which the test takes for a match, so the search
      stops there and version_name keeps its value. */
  lemma BlankLineStopsSearch(line: string, rest: seq<string>, version: string)
    requires forall i :: 0 <= i < |line| ==> IsSpace(line[i])
    ensures OsReleaseId([line] + rest, version) == version
  {
    SkipBlanks(line, []);
    assert line + [] == line;
    assert ([line] + rest)[0] == line;
  }

  /** A chunk whose first character is neither white space nor 'I' (NAME=...,
      VERSION_ID=..., a comment) matches neither format, and the search goes on. */
  lemma OtherLineSkipped(line: string, rest: seq<string>, version: string)
    requires line != [] && !IsSpace(line[0]) && line[0] != 'I'
    ensures OsReleaseId([line] + rest, version) == OsReleaseId(rest, version)
  {
    assert SkipSpace(line) == line;
    assert !("ID=" <= line) && !(line <= "ID=") && !("ID=\"" <= line) && !(line <= "ID=\"");
    assert ([line] + rest)[0] == line && ([line] + rest)[1..] == rest;
  }

  /** As written, a quoted ID that uwu_name knows comes out unknown: %s keeps the
      closing quote, and no key of the name table has one. */
  lemma QuotedIdUnknown(i: nat, rest: string)
    requires i < |Theme.NameTable| && rest != [] && IsSpace(rest[0])
    ensures var id := Theme.NameTable[i].0;
      && IdScan("ID=\"" + id + "\"" + rest) == (true, Some(id + "\""))
      && Theme.UwuName(id + "\"") == Theme.Unknown
      && Theme.UwuName(id) == Theme.NameTable[i].1
  {
    var id := Theme.NameTable[i].0;
    KeyPlain(i);
    QuotedIdLine(id, rest);
    var q := id + "\"";
    assert q[|q| - 1] == '"';
    Theme.UwuNameForeignChar(q, |q| - 1);
    Theme.UwuNameRenames(i);
  }

  /** A key of the name table is a non-empty word without quotes. */
  lemma KeyPlain(i: nat)
    requires i < |Theme.NameTable|
    ensures var id := Theme.NameTable[i].0; id != [] && NoSpace(id) && '"' !in id
  {
    var id := Theme.NameTable[i].0;
    Theme.NameKeysLetters();
    Theme.NameKeysNonEmpty(i);
    assert id != [];
    forall k | 0 <= k < |id| ensures !IsSpace(id[k]) && id[k] != '"' {
      assert Theme.KeyChar(id[k]);
    }
  }

  // The quoted branch as evidently intended: `\nID="%[^"]"` reads the id up to its
  // closing quote.

  const UnquotingIdFormat := [Space] + (Literal("ID=\"") + [Scanset({'"'}, true, 0), Lit('"')])

  function UnquotingIdScan(line: string): Scanned {
    AfterKey(SkipSpace(line), "ID=\"", [Scanset({'"'}, true, 0), Lit('"')])
  }

  lemma UnquotingIdScanIsSscanf(line: string)
    ensures Sscanf(line, UnquotingIdFormat) == UnquotingIdScan(line)
  {
    LiteralsHaveNoSpace();
    RunAfterSpace(line, Literal("ID=\"") + [Scanset({'"'}, true, 0), Lit('"')], []);
    RunAfterKey("ID=\"", SkipSpace(line), [Scanset({'"'}, true, 0), Lit('"')]);
  }

  /** The os-release test with the corrected quoted format in place of `\nID="%s"`. */
  function CorrectedIdScan(line: string): (bool, Option<string>) {
    var quoted := UnquotingIdScan(line);
    if quoted.ret != 0 then (true, StoredText(quoted))
    else
      var plain := PlainIdScan(line);
      (plain.ret != 0, StoredText(plain))
  }

  /** Corrected, `ID="<id>"` stores the id without its quotes. */
  lemma CorrectedQuotedIdLine(id: string, rest: string)
    requires id != [] && '"' !in id
    ensures CorrectedIdScan("ID=\"" + id + "\"" + rest) == (true, Some(id))
  {
    var t := id + "\"" + rest;
    var line := "ID=\"" + t;
    assert "ID=\"" + id + "\"" + rest == line;
    assert SkipSpace(line) == line;
    AfterKeyPrefix("ID=\"", t, [Scanset({'"'}, true, 0), Lit('"')]);
    QuotedTextRun(id, rest);
  }

  /** Corrected, an unquoted `ID=<id>` is still read by the plain format. */
  lemma CorrectedPlainIdLine(id: string, rest: string)
    requires id != [] && NoSpace(id) && id[0] != '"' && rest != [] && IsSpace(rest[0])
    ensures CorrectedIdScan("ID=" + id + rest) == (true, Some(id))
  {
    var line := "ID=" + id + rest;
    assert SkipSpace(line) == line by { assert line[0] == 'I'; }
    assert !("ID=\"" <= line) by { assert line[3] == id[0]; }
    assert !(line <= "ID=\"");
    PlainIdReads(id, rest);
  }

  /** Corrected, a quoted ID that uwu_name knows is read without its quotes and
      themed. */
  lemma CorrectedQuotedIdThemed(i: nat, rest: string)
    requires i < |Theme.NameTable|
    ensures var id := Theme.NameTable[i].0;
      && CorrectedIdScan("ID=\"" + id + "\"" + rest) == (true, Some(id))
      && Theme.UwuName(id) == Theme.NameTable[i].1
  {
    KeyPlain(i);
    CorrectedQuotedIdLine(Theme.NameTable[i].0, rest);
    Theme.UwuNameRenames(i);
  }

  // ------------------------------------------------------------------
  // amogos

  /** An os-release ID of "debian" or "raspbian" becomes "amogos" when the amogos
      plymouth theme directory exists. */
  function Amogos(version: string, amogosThemeExists: bool): (v: string)
    ensures v == "amogos" <==>
      version == "amogos" || ((version == "debian" || version == "raspbian") && amogosThemeExists)
    ensures v != "amogos" ==> v == version
  {
    if (version == "debian" || version == "raspbian") && amogosThemeExists then "amogos" else version
  }

  // ------------------------------------------------------------------
  // The board name: one fgets, then its last character is cut off.

  /** host_model from the first chunk of a non-empty board-name file. */
  function HostModel(file: string): string
    requires file != []
  {
    var line := file[..ChunkLength(file, LineSize)];
    line[..|line| - 1]
  }

  /** A first line that fits the buffer loses exactly its newline. */
  lemma HostModelFirstLine(first: string, rest: string)
    requires ShortLine(first, LineSize)
    ensures HostModel(first + "\n" + rest) == first
  {
    var file := first + "\n" + rest;
    assert file[|first|] == '\n';
    assert forall i :: 0 <= i < |first| ==> file[i] == first[i];
    assert IndexOf(file, '\n') == |first|;
    assert file[..|first| + 1][..|first|] == first;
  }

  /** A file of one short line without a newline loses its last real character. */
  lemma HostModelWithoutNewline(file: string)
    requires file != [] && '\n' !in file && |file| < LineSize - 1
    ensures HostModel(file) == file[..|file| - 1]
  {
    assert IndexOf(file, '\n') == |file|;
  }

  // ------------------------------------------------------------------
  // /proc/cpuinfo: the first `model name    : %[^\n]` that fires.

  /** The directives of `model name    : %[^\n]`: each run of blanks in the format
      is a white-space directive per blank. */
  const CpuAfterColon := [Space, RestOfLine(0)]
  const CpuAfterName := [Space] + ([Space] + ([Space] + ([Space] + (Literal(":") + CpuAfterColon))))
  const CpuAfterModel := [Space] + (Literal("name") + CpuAfterName)
  const CpuFormat := Literal("model") + CpuAfterModel

  /** sscanf with CpuFormat, literal by literal: from the colon on, ... */
  function ColonScan(u: string): Scanned {
    if ":" <= u then Run(SkipSpace(u[1..]), [RestOfLine(0)], []) else Unmatched(u, ":")
  }

  /** ... from "name" on ... */
  function NameScan(t: string): Scanned {
    if "name" <= t then ColonScan(SkipSpace(t[4..])) else Unmatched(t, "name")
  }

  /** ... and the whole line. */
  function CpuScan(line: string): Scanned {
    if "model" <= line then NameScan(SkipSpace(line[5..])) else Unmatched(line, "model")
  }

  lemma ColonStep(s: string)
    ensures Run(s, CpuAfterName, []) == ColonScan(SkipSpace(s))
  {
    var u := SkipSpace(s);
    BlankRun(s, Literal(":") + CpuAfterColon);
    LiteralsHaveNoSpace();
    RunAfterKey(":", u, CpuAfterColon);
    if ":" <= u {
      RunAfterSpace(u[1..], [RestOfLine(0)], []);
    }
  }

  /** The four blanks between `name` and the colon act as one. */
  lemma BlankRun(s: string, f: seq<Directive>)
    ensures Run(s, [Space] + ([Space] + ([Space] + ([Space] + f))), []) == Run(SkipSpace(s), f, [])
  {
    var u := SkipSpace(s);
    RunAfterSpace(s, [Space] + ([Space] + ([Space] + f)), []);
    SkipSpaceTwice(s);
    RunAfterSpace(u, [Space] + ([Space] + f), []);
    RunAfterSpace(u, [Space] + f, []);
    RunAfterSpace(u, f, []);
  }

  lemma NameStep(s: string)
    ensures Run(s, CpuAfterModel, []) == NameScan(SkipSpace(s))
  {
    var t := SkipSpace(s);
    LiteralsHaveNoSpace();
    RunAfterSpace(s, Literal("name") + CpuAfterName, []);
    RunAfterKey("name", t, CpuAfterName);
    if "name" <= t {
      ColonStep(t[4..]);
    }
  }

  lemma CpuScanIsSscanf(line: string)
    ensures Sscanf(line, CpuFormat) == CpuScan(line)
  {
    LiteralsHaveNoSpace();
    RunAfterKey("model", line, CpuAfterModel);
    if "model" <= line {
      NameStep(line[5..]);
    }
  }

  /** cpu_model after the loop over the chunks of cpuinfo. */
  function CpuModel(chunks: seq<string>, model: string): string {
    if chunks == [] then model
    else
      var r := CpuScan(chunks[0]);
      if r.ret != 0 then StoredText(r).GetOr(model) else CpuModel(chunks[1..], model)
  }

  method ReadCpuInfo(chunks: seq<string>, cpuModel: string) returns (model: string)
    ensures model == CpuModel(chunks, cpuModel)
  {
    model := cpuModel;
    var i := 0;
    while i < |chunks|
      invariant i <= |chunks|
      invariant CpuModel(chunks[i..], cpuModel) == CpuModel(chunks, cpuModel)
    {
      assert chunks[i..][0] == chunks[i] && chunks[i..][1..] == chunks[i + 1..];
      CpuScanIsSscanf(chunks[i]);
      var r := Sscanf(chunks[i], CpuFormat);
      if r.ret != 0 {
        model := StoredText(r).GetOr(model);
        return;
      }
      i := i + 1;
    }
  }

  /** The cpuinfo line `model name\t: <name>` stores the name. */
  lemma CpuLine(name: string)
    requires name != [] && '\n' !in name && !IsSpace(name[0])
    ensures CpuScan("model" + (" " + ("name" + ("\t" + (":" + (" " + (name + "\n")))))))
         == Scanned(1, [Text(name)])
  {
    var u := ":" + (" " + (name + "\n"));
    var t := "name" + ("\t" + u);
    ModelKeyword(t);
    NameKeyword(u);
    ColonThenName(name);
  }

  /** After `model` and its blanks comes the scan of `name`. */
  lemma ModelKeyword(t: string)
    requires t != [] && !IsSpace(t[0])
    ensures CpuScan("model" + (" " + t)) == NameScan(t)
  {
    KeyPrefix("model", " " + t);
    SkipBlanks(" ", t);
  }

  /** After `name` and its blanks comes the scan of the colon. */
  lemma NameKeyword(u: string)
    requires u != [] && !IsSpace(u[0])
    ensures NameScan("name" + ("\t" + u)) == ColonScan(u)
  {
    KeyPrefix("name", "\t" + u);
    SkipBlanks("\t", u);
  }

  /** After the colon and its blanks, `%[^\n]` stores the rest of the line. */
  lemma ColonThenName(name: string)
    requires name != [] && '\n' !in name && !IsSpace(name[0])
    ensures ColonScan(":" + (" " + (name + "\n"))) == Scanned(1, [Text(name)])
  {
    var v := name + "\n";
    KeyPrefix(":", " " + v);
    SkipBlanks(" ", v);
    RestOfLineStoresValue(name, 0, []);
  }

  // ------------------------------------------------------------------
  // free -m: `sscanf(line, "Mem: %d %d", &ram_total, &ram_used)` on every chunk.

  /** The directives of `Mem: %d %d`. */
  const MemNumbers := [Space, Integer(false)] + [Space, Integer(false)]
  const MemFormat := Literal("Mem:") + MemNumbers

  function MemScan(line: string): Scanned {
    AfterKey(line, "Mem:", MemNumbers)
  }

  lemma MemScanIsSscanf(line: string)
    ensures Sscanf(line, MemFormat) == MemScan(line)
  {
    LiteralsHaveNoSpace();
    RunAfterKey("Mem:", line, MemNumbers);
  }

  /** ram_total and ram_used after one chunk: each changes when its %d stores. */
  function MemStep(ram: (int, int), line: string): (int, int) {
    var r := MemScan(line);
    (StoredNumber(r, 0).GetOr(ram.0), StoredNumber(r, 1).GetOr(ram.1))
  }

  /** ram_total and ram_used after all chunks. */
  function Memory(chunks: seq<string>, ram: (int, int)): (int, int)
    decreases |chunks|
  {
    if chunks == [] then ram else MemStep(Memory(chunks[..|chunks| - 1], ram), chunks[|chunks| - 1])
  }

  method ReadMemory(chunks: seq<string>, ramTotal: int, ramUsed: int) returns (total: int, used: int)
    ensures (total, used) == Memory(chunks, (ramTotal, ramUsed))
  {
    total, used := ramTotal, ramUsed;
    for i := 0 to |chunks|
      invariant (total, used) == Memory(chunks[..i], (ramTotal, ramUsed))
    {
      assert chunks[..i + 1][..i] == chunks[..i];
      MemScanIsSscanf(chunks[i]);
      var r := Sscanf(chunks[i], MemFormat);
      if |r.values| > 0 && r.values[0].Number? {
        total := r.values[0].n;
      }
      if |r.values| > 1 && r.values[1].Number? {
        used := r.values[1].n;
      }
    }
    assert chunks[..|chunks|] == chunks;
  }

  /** `free -m`'s line `Mem:<blanks><total><blanks><used>...` stores both numbers,
      whatever they were before. */
  lemma MemLine(ram: (int, int), gap1: string, total: string, gap2: string, used: string, rest: string)
    requires gap1 != [] && gap2 != []
    requires forall i :: 0 <= i < |gap1| ==> gap1[i] == ' '
    requires forall i :: 0 <= i < |gap2| ==> gap2[i] == ' '
    requires Decimal(total) && Decimal(used)
    requires rest == [] || DigitValue(rest[0]) >= 10
    ensures MemStep(ram, "Mem:" + (gap1 + (total + (gap2 + (used + rest)))))
         == (DigitsValue(total, 10), DigitsValue(used, 10))
  {
    var line := "Mem:" + (gap1 + (total + (gap2 + (used + rest))));
    MemLineScan(gap1, total, gap2, used, rest);
    MemStepStores(ram, line, DigitsValue(total, 10), DigitsValue(used, 10));
  }

  /** A line whose scan stores two numbers sets both. */
  lemma MemStepStores(ram: (int, int), line: string, a: int, b: int)
    requires MemScan(line) == Scanned(2, [Number(a), Number(b)])
    ensures MemStep(ram, line) == (a, b)
  {
  }

  /** sscanf reads both numbers of a `Mem:` line. */
  lemma MemLineScan(gap1: string, total: string, gap2: string, used: string, rest: string)
    requires gap1 != [] && gap2 != []
    requires forall i :: 0 <= i < |gap1| ==> gap1[i] == ' '
    requires forall i :: 0 <= i < |gap2| ==> gap2[i] == ' '
    requires Decimal(total) && Decimal(used)
    requires rest == [] || DigitValue(rest[0]) >= 10
    ensures MemScan("Mem:" + (gap1 + (total + (gap2 + (used + rest)))))
         == Scanned(2, [Number(DigitsValue(total, 10)), Number(DigitsValue(used, 10))])
  {
    var tail := gap2 + (used + rest);
    AfterKeyPrefix("Mem:", gap1 + (total + tail), MemNumbers);
    NumberAfterGap(gap2, used, rest);
    NumberAfterGap(gap1, total, tail);
    MemNumbersRead(gap1 + (total + tail), DigitsValue(total, 10), |total|, tail, DigitsValue(used, 10), |used|);
  }

  /** After the blanks of a gap, ` %d` finds the decimal number that follows. */
  lemma NumberAfterGap(gap: string, d: string, rest: string)
    requires forall i :: 0 <= i < |gap| ==> gap[i] == ' '
    requires Decimal(d) && (rest == [] || DigitValue(rest[0]) >= 10)
    ensures SkipSpace(gap + (d + rest)) == d + rest
    ensures ScanInteger(d + rest, false) == Some((DigitsValue(d, 10), |d|))
    ensures (d + rest)[|d|..] == rest
    ensures gap != [] ==> DigitValue((gap + (d + rest))[0]) >= 10
  {
    assert (d + rest)[0] == d[0];
    assert DigitValue(' ') == 16;
    SkipBlanks(gap, d + rest);
    DecimalReads(d, rest);
  }

  /** Both ` %d` of `Mem: %d %d` store when each finds an integer after its blanks. */
  lemma MemNumbersRead(s: string, n: int, k: nat, tail: string, m: int, j: nat)
    requires SkipSpace(s) != [] && ScanInteger(SkipSpace(s), false) == Some((n, k))
    requires SkipSpace(s)[k..] == tail
    requires SkipSpace(tail) != [] && ScanInteger(SkipSpace(tail), false) == Some((m, j))
    ensures Run(s, MemNumbers, []) == Scanned(2, [Number(n), Number(m)])
  {
    MemNumbersShape(n, m);
    SpaceThenInteger(s, n, k, [Space, Integer(false)], []);
    SpaceThenInteger(tail, m, j, [], [Number(n)]);
  }

  /** The sequence identities MemNumbersRead needs, kept apart from the scans. */
  lemma MemNumbersShape(n: int, m: int)
    ensures [Space, Integer(false)] == [Space, Integer(false)] + []
    ensures [Number(n)] == [] + [Number(n)]
    ensures [Number(n), Number(m)] == [Number(n)] + [Number(m)]
  {
  }

  /** Chunks that do not start with 'M' (the `Swap:` line, the header) store
      nothing. */
  lemma {:induction false} OtherLinesKeepMemory(chunks: seq<string>, ram: (int, int))
    requires forall i :: 0 <= i < |chunks| ==> chunks[i] != [] && chunks[i][0] != 'M'
    ensures Memory(chunks, ram) == ram
    decreases |chunks|
  {
    if chunks != [] {
      var line := chunks[|chunks| - 1];
      OtherLinesKeepMemory(chunks[..|chunks| - 1], ram);
      assert !("Mem:" <= line) && !(line <= "Mem:");
    }
  }

  /** Chunks after the others act on what those left, so with the last line of
      `Mem:<blanks><total><blanks><used>...` and nothing starting with 'M' after it,
      that line decides both numbers. */
  lemma {:induction false} MemoryAppend(a: seq<string>, b: seq<string>, ram: (int, int))
    ensures Memory(a + b, ram) == Memory(b, Memory(a, ram))
    decreases |b|
  {
    if b == [] {
      assert a + b == a;
    } else {
      var init := b[..|b| - 1];
      assert (a + b)[..|a + b| - 1] == a + init;
      MemoryAppend(a, init, ram);
    }
  }

  // ------------------------------------------------------------------
  // xwininfo: `  Width: %d` and `  Height: %d` on every chunk.

  /** The directives of `  Width: %d` and `  Height: %d`. */
  const WidthFormat := [Space] + ([Space] + (Literal("Width:") + [Space, Integer(false)]))
  const HeightFormat := [Space] + ([Space] + (Literal("Height:") + [Space, Integer(false)]))

  function DimensionScan(line: string, key: string): Scanned {
    AfterKey(SkipSpace(line), key, [Space, Integer(false)])
  }

  lemma DimensionScansAreSscanf(line: string)
    ensures Sscanf(line, WidthFormat) == DimensionScan(line, "Width:")
    ensures Sscanf(line, HeightFormat) == DimensionScan(line, "Height:")
  {
    LiteralsHaveNoSpace();
    var w := Literal("Width:") + [Space, Integer(false)];
    var h := Literal("Height:") + [Space, Integer(false)];
    SkipSpaceTwice(line);
    RunAfterSpace(line, [Space] + w, []);
    RunAfterSpace(SkipSpace(line), w, []);
    RunAfterKey("Width:", SkipSpace(line), [Space, Integer(false)]);
    RunAfterSpace(line, [Space] + h, []);
    RunAfterSpace(SkipSpace(line), h, []);
    RunAfterKey("Height:", SkipSpace(line), [Space, Integer(false)]);
  }

  function ResolutionStep(size: (int, int), line: string): (int, int) {
    (StoredNumber(DimensionScan(line, "Width:"), 0).GetOr(size.0),
     StoredNumber(DimensionScan(line, "Height:"), 0).GetOr(size.1))
  }

  /** screen_width and screen_height after all chunks. */
  function Resolution(chunks: seq<string>, size: (int, int)): (int, int)
    decreases |chunks|
  {
    if chunks == [] then size else ResolutionStep(Resolution(chunks[..|chunks| - 1], size), chunks[|chunks| - 1])
  }

  method ReadResolution(chunks: seq<string>, screenWidth: int, screenHeight: int) returns (width: int, height: int)
    ensures (width, height) == Resolution(chunks, (screenWidth, screenHeight))
  {
    width, height := screenWidth, screenHeight;
    for i := 0 to |chunks|
      invariant (width, height) == Resolution(chunks[..i], (screenWidth, screenHeight))
    {
      ResolutionLast(chunks, (screenWidth, screenHeight), i);
      DimensionScansAreSscanf(chunks[i]);
      var w := Sscanf(chunks[i], WidthFormat);
      if |w.values| > 0 && w.values[0].Number? {
        width := w.values[0].n;
      }
      var h := Sscanf(chunks[i], HeightFormat);
      if |h.values| > 0 && h.values[0].Number? {
        height := h.values[0].n;
      }
    }
    assert chunks[..|chunks|] == chunks;
  }

  /** The chunks up to `i` and then chunk `i`. */
  lemma ResolutionLast(chunks: seq<string>, size: (int, int), i: nat)
    requires i < |chunks|
    ensures Resolution(chunks[..i + 1], size) == ResolutionStep(Resolution(chunks[..i], size), chunks[i])
  {
    assert chunks[..i + 1][..i] == chunks[..i];
  }

  /** A line that is, once its leading blanks are skipped, `<key> <n>`, stores n. */
  lemma DimensionLine(line: string, key: string, n: nat)
    requires key != [] && NoSpace(key)
    requires SkipSpace(line) == key + (" " + (NatString(n) + "\n"))
    ensures DimensionScan(line, key) == Scanned(1, [Number(n)])
  {
    AfterKeyPrefix(key, " " + (NatString(n) + "\n"), [Space, Integer(false)]);
    SpacedNumberLine(n);
  }

  /** xwininfo's `  Width: <n>` sets the width and leaves the height. */
  lemma WidthLine(size: (int, int), n: nat)
    ensures ResolutionStep(size, "  Width: " + NatString(n) + "\n") == (n, size.1)
  {
    LiteralsHaveNoSpace();
    assert "  Width: " == "  " + "Width:" + " ";
    KeyedDimension("Width:", "Height:", n);
  }

  /** xwininfo's `  Height: <n>` sets the height and leaves the width. */
  lemma HeightLine(size: (int, int), n: nat)
    ensures ResolutionStep(size, "  Height: " + NatString(n) + "\n") == (size.0, n)
  {
    LiteralsHaveNoSpace();
    assert "  Height: " == "  " + "Height:" + " ";
    KeyedDimension("Height:", "Width:", n);
  }

  /** An indented `<key> <n>` line stores n under its key, and nothing under a key
      that starts with another letter. */
  lemma KeyedDimension(key: string, other: string, n: nat)
    requires key != [] && NoSpace(key) && other != [] && key[0] != other[0]
    ensures DimensionScan("  " + key + " " + NatString(n) + "\n", key) == Scanned(1, [Number(n)])
    ensures DimensionScan("  " + key + " " + NatString(n) + "\n", other) == Scanned(0, [])
  {
    var t := key + (" " + (NatString(n) + "\n"));
    assert "  " + key + " " + NatString(n) + "\n" == "  " + t;
    assert t[0] == key[0];
    SkipBlanks("  ", t);
    DimensionLine("  " + t, key, n);
    FirstCharDiffers(t, other, [Space, Integer(false)]);
  }

  // ------------------------------------------------------------------
  // The GPU list from lspci (or wmic): lines naming a column ("Name") and lines of
  // two characters are skipped; `%[^\n]` stores the others into the next entry.
  // Afterwards every entry found has its brackets removed.

  /** What one chunk adds to the list: None when it is skipped or sscanf returns 0. */
  function GpuEntry(line: string): Option<Option<string>> {
    if Find(line, "Name", false).Some? then None
    else if |line| == 2 then None
    else
      var r := Sscanf(line, [RestOfLine(0)]);
      if r.ret != 0 then Some(StoredText(r)) else None
  }

  /** The entries the chunks add, in order; an entry is Some(text) when sscanf stored. */
  function GpuEntries(chunks: seq<string>): seq<Option<string>>
    decreases |chunks|
  {
    if chunks == [] then []
    else
      var init := GpuEntries(chunks[..|chunks| - 1]);
      match GpuEntry(chunks[|chunks| - 1])
      case None => init
      case Some(e) => init + [e]
  }

  /** A chunk fgets returned is never empty, so sscanf never returns EOF on it: the
      entries it adds are exactly the chunks kept, cut at their newline. */
  lemma GpuEntryOfChunk(line: string)
    requires line != []
    ensures GpuEntry(line).Some? <==>
      Find(line, "Name", false).None? && |line| != 2 && line[0] != '\n'
    ensures GpuEntry(line).Some? ==> GpuEntry(line) == Some(Some(line[..IndexOf(line, '\n')]))
  {
    var n := ScansetRun(line, {'\n'}, true, 0);
    assert n == IndexOf(line, '\n') by {
      ScansetRunIsIndexOf(line);
    }
    if n > 0 {
      assert Run(line, [RestOfLine(0)], []) == Run(line[n..], [], [Text(line[..n])]);
    }
  }

  lemma {:induction false} ScansetRunIsIndexOf(s: string)
    ensures ScansetRun(s, {'\n'}, true, 0) == IndexOf(s, '\n')
  {
    if s != [] && s[0] != '\n' {
      ScansetRunIsIndexOf(s[1..]);
    }
  }

  /** The names the list ends with: the text of each entry without its brackets. */
  function GpuName(e: Option<string>, previous: string): string {
    WithoutBrackets(e.GetOr(previous))
  }

  /** The GPU loop from entry `gpun` on, then the bracket loop over every entry found.
      Each chunk kept fills the next entry (when sscanf stores nothing the entry keeps
      what it held); the entries found, earlier ones included, lose their brackets. */
  method ReadGpus(gpuModel: array<string>, gpun: nat, chunks: seq<string>) returns (n: nat)
    requires gpun + |GpuEntries(chunks)| <= gpuModel.Length
    modifies gpuModel
    ensures n == gpun + |GpuEntries(chunks)|
    ensures forall i :: 0 <= i < gpun ==> gpuModel[i] == WithoutBrackets(old(gpuModel[i]))
    ensures forall i :: gpun <= i < n ==> gpuModel[i] == GpuName(GpuEntries(chunks)[i - gpun], old(gpuModel[i]))
    ensures forall i :: n <= i < gpuModel.Length ==> gpuModel[i] == old(gpuModel[i])
  {
    n := ReadGpuEntries(gpuModel, gpun, chunks);
    StripGpuBrackets(gpuModel, n);
  }

  /** The GPU loop: each chunk kept fills the next entry from `gpun` on. */
  method ReadGpuEntries(gpuModel: array<string>, gpun: nat, chunks: seq<string>) returns (n: nat)
    requires gpun + |GpuEntries(chunks)| <= gpuModel.Length
    modifies gpuModel
    ensures n == gpun + |GpuEntries(chunks)|
    ensures gpuModel[..] == Filled(old(gpuModel[..]), gpun, GpuEntries(chunks))
  {
    n := gpun;
    for k := 0 to |chunks|
      invariant n == gpun + |GpuEntries(chunks[..k])| <= gpuModel.Length
      invariant gpuModel[..] == Filled(old(gpuModel[..]), gpun, GpuEntries(chunks[..k]))
    {
      FillStep(old(gpuModel[..]), gpun, chunks, k);
      n := ReadGpuChunk(gpuModel, n, chunks[k]);
    }
    assert chunks[..|chunks|] == chunks;
  }

  /** What one more chunk does to the filled array: nothing, or one more slot. */
  lemma FillStep(o: seq<string>, gpun: nat, chunks: seq<string>, k: nat)
    requires k < |chunks| && gpun + |GpuEntries(chunks)| <= |o|
    ensures var es, es' := GpuEntries(chunks[..k]), GpuEntries(chunks[..k + 1]);
      && gpun + |es'| <= |o|
      && (GpuEntry(chunks[k]).None? ==> es' == es)
      && (GpuEntry(chunks[k]).Some? ==>
            var n := gpun + |es|;
            && n < |o| && |es'| == |es| + 1 && Filled(o, gpun, es)[n] == o[n]
            && Filled(o, gpun, es') == Filled(o, gpun, es)[n := GpuEntry(chunks[k]).value.GetOr(o[n])])
  {
    GpuEntriesGrow(chunks, k);
    GpuEntriesPrefix(chunks, k + 1);
    if GpuEntry(chunks[k]).Some? {
      FilledSnoc(o, gpun, GpuEntries(chunks[..k]), GpuEntry(chunks[k]).value);
    }
  }

  /** One pass of the GPU loop over a chunk: a chunk naming the column or two bytes
      long is skipped, one sscanf converts fills slot `n`, if it stored text. */
  method ReadGpuChunk(gpuModel: array<string>, n: nat, line: string) returns (next: nat)
    requires GpuEntry(line).Some? ==> n < gpuModel.Length
    modifies gpuModel
    ensures GpuEntry(line).None? ==> next == n && gpuModel[..] == old(gpuModel[..])
    ensures GpuEntry(line).Some? ==>
      next == n + 1 && gpuModel[..] == old(gpuModel[..])[n := GpuEntry(line).value.GetOr(old(gpuModel[n]))]
  {
    next := n;
    if Find(line, "Name", false).Some? {
      return;
    } else if |line| == 2 {
      return;
    }
    var r := Sscanf(line, [RestOfLine(0)]);
    if r.ret != 0 {
      if |r.values| > 0 && r.values[0].Text? {
        gpuModel[n] := r.values[0].s;
      }
      next := n + 1;
    }
  }

  /** The array `o` with the entries `es` written from `gpun` on; an entry that
      stored nothing leaves its slot as it was. */
  ghost function Filled(o: seq<string>, gpun: nat, es: seq<Option<string>>): (f: seq<string>)
    requires gpun + |es| <= |o|
    ensures |f| == |o|
    ensures forall i :: gpun <= i < gpun + |es| ==> f[i] == es[i - gpun].GetOr(o[i])
    ensures forall i :: 0 <= i < |o| && !(gpun <= i < gpun + |es|) ==> f[i] == o[i]
  {
    seq(|o|, i requires 0 <= i < |o| => if gpun <= i < gpun + |es| then es[i - gpun].GetOr(o[i]) else o[i])
  }

  /** One more entry writes one more slot. */
  lemma FilledSnoc(o: seq<string>, gpun: nat, es: seq<Option<string>>, e: Option<string>)
    requires gpun + |es| < |o|
    ensures Filled(o, gpun, es + [e]) == Filled(o, gpun, es)[gpun + |es| := e.GetOr(o[gpun + |es|])]
    ensures e.None? ==> Filled(o, gpun, es + [e]) == Filled(o, gpun, es)
  {
  }

  /** The bracket loop over the first `n` entries. */
  method StripGpuBrackets(gpuModel: array<string>, n: nat)
    requires n <= gpuModel.Length
    modifies gpuModel
    ensures forall i :: 0 <= i < n ==> gpuModel[i] == WithoutBrackets(old(gpuModel[i]))
    ensures forall i :: n <= i < gpuModel.Length ==> gpuModel[i] == old(gpuModel[i])
  {
    for i := 0 to n
      invariant forall j :: 0 <= j < i ==> gpuModel[j] == WithoutBrackets(old(gpuModel[j]))
      invariant forall j :: i <= j < gpuModel.Length ==> gpuModel[j] == old(gpuModel[j])
    {
      gpuModel[i] := WithoutBrackets(gpuModel[i]);
    }
  }

  /** GpuEntries of one more chunk: at most one more entry. */
  lemma GpuEntriesGrow(chunks: seq<string>, k: nat)
    requires k < |chunks|
    ensures GpuEntries(chunks[..k + 1]) ==
      match GpuEntry(chunks[k])
      case None => GpuEntries(chunks[..k])
      case Some(e) => GpuEntries(chunks[..k]) + [e]
  {
    assert chunks[..k + 1][..k] == chunks[..k];
  }

  /** The chunks read so far never added more entries than all of them do. */
  lemma {:induction false} GpuEntriesPrefix(chunks: seq<string>, k: nat)
    requires k <= |chunks|
    ensures |GpuEntries(chunks[..k])| <= |GpuEntries(chunks)|
    decreases |chunks| - k
  {
    if k < |chunks| {
      GpuEntriesGrow(chunks, k);
      GpuEntriesPrefix(chunks, k + 1);
    } else {
      assert chunks[..k] == chunks;
    }
  }

  /** A chunk that names a column ("Name", the wmic header) never becomes an entry. */
  lemma NameLineSkipped(chunks: seq<string>, line: string)
    requires Find(line, "Name", false).Some?
    ensures GpuEntries(chunks + [line]) == GpuEntries(chunks)
  {
    assert (chunks + [line])[..|chunks|] == chunks;
  }

  /** The names the list ends with have no brackets. */
  lemma GpuNamesHaveNoBrackets(e: Option<string>, previous: string)
    ensures '[' !in GpuName(e, previous) && ']' !in GpuName(e, previous)
  {
    var s := e.GetOr(previous);
    WithoutBracketsHasNone(s);
  }

  // ------------------------------------------------------------------
  // SHELL: copied into the zeroed shell[64]; a value longer than 16 characters is
  // moved left by 27 places (`memmove(shell, &shell[27], strlen(shell))`).

  /** The 64-byte shell buffer after `sprintf(shell, "%s", value)` into a zeroed struct. */
  function ShellBuffer(value: string): (buf: seq<char>)
    requires |value| < 64
    ensures |buf| == 64
  {
    value + seq(64 - |value|, _ => '\0')
  }

  /** The shell member after the copy and the move. The move reads 27 + strlen bytes
      of the 64-byte buffer, so a value longer than 37 would read past it. */
  function Shell(env: Option<string>): string
    requires env.Some? ==> |env.value| <= 37
  {
    var value := env.GetOr([]);
    var buf := ShellBuffer(value);
    var n := |value|;
    var moved := if n > 16 then buf[27..27 + n] + buf[n..] else buf;
    moved[..CLength(moved)]
  }

  /** The shell kept whole up to 16 characters; longer, everything after its first 27
      characters, which is nothing for a value of 17 to 27 characters: the bytes
      moved in are the buffer's zeros. */
  lemma ShellTrim(env: Option<string>)
    requires env.Some? ==> |env.value| <= 37 && '\0' !in env.value
    ensures var v := env.GetOr([]);
      && (|v| <= 16 ==> Shell(env) == v)
      && (16 < |v| < 27 ==> Shell(env) == [])
      && (27 <= |v| ==> Shell(env) == v[27..])
  {
    var value := env.GetOr([]);
    var buf := ShellBuffer(value);
    var n := |value|;
    assert forall i :: 0 <= i < n ==> buf[i] == value[i] && value[i] != '\0';
    assert forall i :: n <= i < 64 ==> buf[i] == '\0';
    if n > 16 {
      var moved := buf[27..27 + n] + buf[n..];
      if n < 27 {
        assert moved[0] == '\0';
        CLengthIs(moved, 0);
      } else {
        assert forall i :: 0 <= i < n - 27 ==> moved[i] == value[27 + i];
        assert moved[n - 27] == '\0';
        CLengthIs(moved, n - 27);
        assert moved[..n - 27] == value[27..];
      }
    } else {
      CLengthIs(buf, n);
      assert buf[..n] == value;
    }
  }
}
