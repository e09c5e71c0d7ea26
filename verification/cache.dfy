/** The cache file ~/.cache/uwufetch.cache: write_cache prints the gathered
    information as `key=value` lines, read_cache scans every line against every key. */
module Cache {
  import opened Wrappers
  import opened CStrings
  import opened Stdio

  /** Entries of `gpu_model[64][256]`. */
  const GpuSlots: nat := 64

  /** The field width of every `%99[^\n]` of read_cache. */
  const FieldWidth: nat := 99

  /** Size of version_name, shell and pkgman_name, which `%99[^\n]` can overrun. */
  const NarrowSize: nat := 64

  /** The keys of the cache file, in the order read_cache tries them. */
  datatype Field =
    | User | Host | VersionName | HostModel | Kernel | Cpu | Gpu
    | ScreenWidth | ScreenHeight | Shell | Pkgs | PkgmanName

  function Key(f: Field): string {
    match f
    case User => "user="
    case Host => "host="
    case VersionName => "version_name="
    case HostModel => "host_model="
    case Kernel => "kernel="
    case Cpu => "cpu="
    case Gpu => "gpu="
    case ScreenWidth => "screen_width="
    case ScreenHeight => "screen_height="
    case Shell => "shell="
    case Pkgs => "pkgs="
    case PkgmanName => "pkgman_name="
  }

  /** The fields read with `%i` rather than `%99[^\n]`. */
  predicate Numeric(f: Field) {
    f == ScreenWidth || f == ScreenHeight || f == Pkgs
  }

  /** The conversion that follows a key: `%i` or `%99[^\n]`. */
  function Conversion(f: Field): Directive {
    if Numeric(f) then Integer(true) else RestOfLine(FieldWidth)
  }

  /** The sscanf format read_cache uses for a key. */
  function Format(f: Field): seq<Directive> {
    Literal(Key(f)) + [Conversion(f)]
  }

  lemma KeysHaveNoSpace(f: Field)
    ensures NoSpace(Key(f))
  {
    match f
    case User => assert NoSpace("user=");
    case Host => assert NoSpace("host=");
    case VersionName => assert NoSpace("version_name=");
    case HostModel => assert NoSpace("host_model=");
    case Kernel => assert NoSpace("kernel=");
    case Cpu => assert NoSpace("cpu=");
    case Gpu => assert NoSpace("gpu=");
    case ScreenWidth => assert NoSpace("screen_width=");
    case ScreenHeight => assert NoSpace("screen_height=");
    case Shell => assert NoSpace("shell=");
    case Pkgs => assert NoSpace("pkgs=");
    case PkgmanName => assert NoSpace("pkgman_name=");
  }

  /** Every key ends with its only '='. */
  lemma KeyShape(f: Field)
    ensures |Key(f)| > 0 && Key(f)[|Key(f)| - 1] == '='
    ensures forall i :: 0 <= i < |Key(f)| - 1 ==> Key(f)[i] != '='
  {
  }

  /** Distinct fields have distinct keys. */
  lemma KeyInjective(f: Field, g: Field)
    ensures Key(f) == Key(g) ==> f == g
  {
  }

  /** Of two keys that are both prefixes of the same text, neither is shorter:
      the shorter one's '=' would fall inside the longer one. */
  lemma {:induction false} SharedPrefix(f: Field, g: Field, t: string)
    requires Key(f) <= t && Key(g) <= t
    ensures f == g
  {
    var a, b := Key(f), Key(g);
    KeyShape(f);
    KeyShape(g);
    KeyInjective(f, g);
    var n := if |a| < |b| then |a| else |b|;
    assert a[n - 1] == t[n - 1] == b[n - 1] == '=';
    assert n == |a| == |b|;
    assert a == t[..n] == b;
  }

  /** sscanf of a line against the format of a key, case by case: when the line
      starts with the key the conversion reads what follows it; when the line ends
      inside the key the result is EOF; otherwise the key does not match and
      nothing is stored. */
  function KeyedScan(line: string, f: Field): Scanned {
    var key := Key(f);
    if key <= line then Run(line[|key|..], [Conversion(f)], [])
    else if line <= key then Scanned(-1, [])
    else Scanned(0, [])
  }

  /** The case split is exactly what sscanf does with the key's format. */
  lemma KeyedScanIsSscanf(line: string, f: Field)
    ensures Sscanf(line, Format(f)) == KeyedScan(line, f)
  {
    KeysHaveNoSpace(f);
    SscanfAfterLiteral(Key(f), line, [Conversion(f)]);
  }

  /** A line that starts with one key matches no other: sscanf with another key's
      format stores nothing and returns 0. */
  lemma OtherKeyFails(f: Field, g: Field, line: string)
    requires f != g && Key(f) <= line
    ensures KeyedScan(line, g) == Scanned(0, [])
  {
    if Key(g) <= line {
      SharedPrefix(f, g, line);
    } else if line <= Key(g) {
      assert Key(f) <= Key(g);
      SharedPrefix(f, g, Key(g));
    }
  }

  /** The text a line stores through the format of `f`, if any. */
  function ScanText(line: string, f: Field): Option<string> {
    StoredText(KeyedScan(line, f))
  }

  /** The number a line stores through the format of `f`, if any. */
  function ScanNumber(line: string, f: Field): Option<int> {
    StoredNumber(KeyedScan(line, f), 0)
  }

  /** The fields of `struct info` the cache holds. */
  datatype Record = Record(
    user: string, host: string, versionName: string, hostModel: string,
    kernel: string, cpuModel: string, gpus: seq<string>,
    screenWidth: int, screenHeight: int, shell: string, pkgs: int, pkgmanName: string)

  /** A record of zero bytes: empty strings, zero numbers. */
  function Zeroed(): (r: Record)
    ensures |r.gpus| == GpuSlots
  {
    Record("", "", "", "", "", "", seq(GpuSlots, _ => ""), 0, 0, "", 0, "")
  }

  // ------------------------------------------------------------------
  // write_cache

  /** The index of the first empty GPU entry, where write_cache's loop stops. */
  function FirstEmpty(gpus: seq<string>): (n: nat)
    ensures n <= |gpus|
    ensures n < |gpus| ==> gpus[n] == ""
    ensures forall i :: 0 <= i < n ==> gpus[i] != ""
  {
    if gpus == [] || gpus[0] == "" then 0 else 1 + FirstEmpty(gpus[1..])
  }

  /** The lines write_cache prints for a record, without their newlines. */
  function CacheLines(r: Record): seq<string> {
    ScalarLines(r) + GpuLines(r.gpus, FirstEmpty(r.gpus))
  }

  /** The lines of write_cache's single fprintf, in the order it prints them. */
  function ScalarLines(r: Record): (ls: seq<string>)
    ensures |ls| == 11
  {
    [ Key(User) + r.user, Key(Host) + r.host, Key(VersionName) + r.versionName,
      Key(HostModel) + r.hostModel, Key(Kernel) + r.kernel, Key(Cpu) + r.cpuModel,
      Key(ScreenWidth) + IntString(r.screenWidth), Key(ScreenHeight) + IntString(r.screenHeight),
      Key(Shell) + r.shell, Key(Pkgs) + IntString(r.pkgs), Key(PkgmanName) + r.pkgmanName ]
  }

  /** `gpu=` lines for the first `n` entries. */
  function GpuLines(gpus: seq<string>, n: nat): (ls: seq<string>)
    requires n <= |gpus|
    ensures |ls| == n && forall i :: 0 <= i < n ==> ls[i] == Key(Gpu) + gpus[i]
  {
    seq(n, i requires 0 <= i < n => Key(Gpu) + gpus[i])
  }

  /** The file write_cache produces. */
  function CacheText(r: Record): string {
    Lines(CacheLines(r))
  }

  /** The file is the scalar lines, then the GPU lines. */
  lemma CacheTextParts(r: Record)
    ensures CacheText(r) == Lines(ScalarLines(r) + GpuLines(r.gpus, FirstEmpty(r.gpus)))
  {
  }

  /** With an empty entry somewhere, the first empty one is inside the array. */
  lemma EmptySlotFound(gpus: seq<string>)
    requires exists i :: 0 <= i < |gpus| && gpus[i] == ""
    ensures FirstEmpty(gpus) < |gpus|
  {
  }

  /** A non-empty entry at or before the first empty one is before it. */
  lemma BeforeFirstEmpty(gpus: seq<string>, i: nat)
    requires i <= FirstEmpty(gpus) < |gpus| && gpus[i] != ""
    ensures i < FirstEmpty(gpus)
  {
  }

  /** One more turn of write_cache's GPU loop prints one more line. */
  lemma GpuLineWritten(scalars: seq<string>, gpus: seq<string>, i: nat)
    requires i < |gpus|
    ensures Lines(scalars + GpuLines(gpus, i + 1)) == Lines(scalars + GpuLines(gpus, i)) + Key(Gpu) + gpus[i] + "\n"
  {
    LinesSnoc(scalars + GpuLines(gpus, i), Key(Gpu) + gpus[i]);
    assert scalars + GpuLines(gpus, i + 1) == scalars + GpuLines(gpus, i) + [Key(Gpu) + gpus[i]];
  }

  lemma {:induction false} LinesSnoc(ls: seq<string>, l: string)
    ensures Lines(ls + [l]) == Lines(ls) + l + "\n"
  {
    if ls == [] {
      assert Lines([l]) == l + "\n" + Lines([]);
    } else {
      assert (ls + [l])[1..] == ls[1..] + [l];
      LinesSnoc(ls[1..], l);
    }
  }

  // ------------------------------------------------------------------
  // read_cache

  /** The record read so far and the GPU counter `gpun`. */
  datatype Reading = Reading(info: Record, gpun: nat)

  /** The keys in the order read_cache tries them on every line. */
  const Fields: seq<Field> :=
    [User, Host, VersionName, HostModel, Kernel, Cpu, Gpu, ScreenWidth, ScreenHeight, Shell, Pkgs, PkgmanName]

  /** The results of sscanf on a line against the formats of `fields`, in order. */
  function ScanAll(line: string, fields: seq<Field>): (r: seq<Scanned>)
    ensures |r| == |fields|
  {
    if fields == [] then [] else [KeyedScan(line, fields[0])] + ScanAll(line, fields[1..])
  }

  lemma {:induction false} ScanAllAt(line: string, fields: seq<Field>, i: nat)
    requires i < |fields|
    ensures ScanAll(line, fields)[i] == KeyedScan(line, fields[i])
  {
    if i > 0 {
      ScanAllAt(line, fields[1..], i - 1);
    }
  }

  /** What the sscanf call of one key does: a text or number field changes only
      when the call stores a value; the gpu call stores into entry `gpun` (when
      there is one) and advances `gpun` whenever it returns non-zero, EOF included. */
  function Assign(s: Reading, f: Field, sc: Scanned): Reading {
    var r := s.info;
    match f
    case User => s.(info := r.(user := StoredText(sc).GetOr(r.user)))
    case Host => s.(info := r.(host := StoredText(sc).GetOr(r.host)))
    case VersionName => s.(info := r.(versionName := StoredText(sc).GetOr(r.versionName)))
    case HostModel => s.(info := r.(hostModel := StoredText(sc).GetOr(r.hostModel)))
    case Kernel => s.(info := r.(kernel := StoredText(sc).GetOr(r.kernel)))
    case Cpu => s.(info := r.(cpuModel := StoredText(sc).GetOr(r.cpuModel)))
    case Gpu =>
      var gpus :=
        if StoredText(sc).Some? && s.gpun < |r.gpus| then r.gpus[s.gpun := StoredText(sc).value]
        else r.gpus;
      Reading(r.(gpus := gpus), if sc.ret != 0 then s.gpun + 1 else s.gpun)
    case ScreenWidth => s.(info := r.(screenWidth := StoredNumber(sc, 0).GetOr(r.screenWidth)))
    case ScreenHeight => s.(info := r.(screenHeight := StoredNumber(sc, 0).GetOr(r.screenHeight)))
    case Shell => s.(info := r.(shell := StoredText(sc).GetOr(r.shell)))
    case Pkgs => s.(info := r.(pkgs := StoredNumber(sc, 0).GetOr(r.pkgs)))
    case PkgmanName => s.(info := r.(pkgmanName := StoredText(sc).GetOr(r.pkgmanName)))
  }

  /** The twelve sscanf calls of read_cache's loop body, given their results. They
      store into distinct fields, so their combined effect is stated field by field. */
  function Store(s: Reading, scans: seq<Scanned>): Reading
    requires |scans| == |Fields|
  {
    var r := s.info;
    var gpu := scans[6];
    var gpus :=
      if StoredText(gpu).Some? && s.gpun < |r.gpus| then r.gpus[s.gpun := StoredText(gpu).value]
      else r.gpus;
    Reading(
      Record(
        StoredText(scans[0]).GetOr(r.user),
        StoredText(scans[1]).GetOr(r.host),
        StoredText(scans[2]).GetOr(r.versionName),
        StoredText(scans[3]).GetOr(r.hostModel),
        StoredText(scans[4]).GetOr(r.kernel),
        StoredText(scans[5]).GetOr(r.cpuModel),
        gpus,
        StoredNumber(scans[7], 0).GetOr(r.screenWidth),
        StoredNumber(scans[8], 0).GetOr(r.screenHeight),
        StoredText(scans[9]).GetOr(r.shell),
        StoredNumber(scans[10], 0).GetOr(r.pkgs),
        StoredText(scans[11]).GetOr(r.pkgmanName)),
      if gpu.ret != 0 then s.gpun + 1 else s.gpun)
  }

  /** One pass of read_cache's loop body on a line. */
  function ReadLine(s: Reading, line: string): Reading {
    Store(s, ScanAll(line, Fields))
  }

  /** On a line that starts with the key of `f`, every other call fails to match. */
  lemma ScansOfKeyedLine(line: string, f: Field)
    requires Key(f) <= line
    ensures forall i :: 0 <= i < |Fields| ==>
      ScanAll(line, Fields)[i] == if Fields[i] == f then KeyedScan(line, f) else Scanned(0, [])
  {
    forall i | 0 <= i < |Fields|
      ensures ScanAll(line, Fields)[i] == if Fields[i] == f then KeyedScan(line, f) else Scanned(0, [])
    {
      ScanAllAt(line, Fields, i);
      if Fields[i] != f {
        OtherKeyFails(f, Fields[i], line);
      }
    }
  }

  /** A line that starts with a key is read by the sscanf call of that key alone. */
  lemma ReadKeyedLine(s: Reading, line: string, f: Field)
    requires Key(f) <= line
    ensures ReadLine(s, line) == Assign(s, f, KeyedScan(line, f))
  {
    ScansOfKeyedLine(line, f);
    StoreOne(s, ScanAll(line, Fields), f, KeyedScan(line, f));
  }

  /** When only the call of `f` matched, storing the results is that call's assignment. */
  lemma StoreOne(s: Reading, scans: seq<Scanned>, f: Field, sc: Scanned)
    requires |scans| == |Fields|
    requires forall i :: 0 <= i < |Fields| ==> scans[i] == if Fields[i] == f then sc else Scanned(0, [])
    ensures Store(s, scans) == Assign(s, f, sc)
  {
  }

  /** read_cache's loop over the lines fgets returns. */
  function ReadLines(s: Reading, chunks: seq<string>): Reading {
    if chunks == [] then s else ReadLine(ReadLines(s, chunks[..|chunks| - 1]), chunks[|chunks| - 1])
  }

  /** The lines are read one after the other. */
  lemma {:induction false} ReadLinesAppend(s: Reading, a: seq<string>, b: seq<string>)
    ensures ReadLines(s, a + b) == ReadLines(ReadLines(s, a), b)
    decreases |b|
  {
    if b == [] {
      assert a + b == a;
    } else {
      assert (a + b)[..|a + b| - 1] == a + b[..|b| - 1];
      ReadLinesAppend(s, a, b[..|b| - 1]);
    }
  }

  /** Whether the gpu sscanf of a line returns non-zero, which advances `gpun`. */
  predicate GpuCounted(line: string) {
    KeyedScan(line, Gpu).ret != 0
  }

  /** A line adds one to `gpun` exactly when it is counted. */
  lemma ReadLineGpun(s: Reading, line: string)
    ensures GpuCounted(line) ==> ReadLine(s, line).gpun == s.gpun + 1
    ensures !GpuCounted(line) ==> ReadLine(s, line).gpun == s.gpun
  {
    ScanAllAt(line, Fields, 6);
  }

  /** The gpu call is the seventh of the line, so it counts whenever it stores. */
  lemma GpuScanCounted(line: string, scans: seq<Scanned>)
    requires scans == ScanAll(line, Fields)
    ensures scans[6] == KeyedScan(line, Gpu)
    ensures StoredText(scans[6]).Some? ==> scans[6].ret != 0 && GpuCounted(line)
  {
    ScanAllAt(line, Fields, 6);
    GpuStoredIsCounted(line);
  }

  /** The struct and counter after the twelve calls, field by field, are Store's. */
  lemma StoreFields(s: Reading, scans: seq<Scanned>, r: Record, next: nat)
    requires |scans| == |Fields|
    requires r.user == StoredText(scans[0]).GetOr(s.info.user)
    requires r.host == StoredText(scans[1]).GetOr(s.info.host)
    requires r.versionName == StoredText(scans[2]).GetOr(s.info.versionName)
    requires r.hostModel == StoredText(scans[3]).GetOr(s.info.hostModel)
    requires r.kernel == StoredText(scans[4]).GetOr(s.info.kernel)
    requires r.cpuModel == StoredText(scans[5]).GetOr(s.info.cpuModel)
    requires r.gpus == Store(s, scans).info.gpus
    requires r.screenWidth == StoredNumber(scans[7], 0).GetOr(s.info.screenWidth)
    requires r.screenHeight == StoredNumber(scans[8], 0).GetOr(s.info.screenHeight)
    requires r.shell == StoredText(scans[9]).GetOr(s.info.shell)
    requires r.pkgs == StoredNumber(scans[10], 0).GetOr(s.info.pkgs)
    requires r.pkgmanName == StoredText(scans[11]).GetOr(s.info.pkgmanName)
    requires next == Store(s, scans).gpun
    ensures Reading(r, next) == Store(s, scans)
  {
  }

  /** A line that stores a GPU is counted. */
  lemma GpuStoredIsCounted(line: string)
    ensures StoredText(KeyedScan(line, Gpu)).Some? ==> GpuCounted(line)
  {
    if Key(Gpu) <= line {
      RunStoresInOrder(line[|Key(Gpu)|..], [Conversion(Gpu)], []);
    }
  }

  /** The loop of read_cache reads one more line, and that line finds a free GPU
      entry whenever it is counted and the whole file stays within the array. */
  lemma ReadLinesStep(s: Reading, chunks: seq<string>, i: nat)
    requires i < |chunks| && ReadLines(s, chunks).gpun <= GpuSlots
    ensures ReadLines(s, chunks[..i + 1]) == ReadLine(ReadLines(s, chunks[..i]), chunks[i])
    ensures GpuCounted(chunks[i]) ==> ReadLines(s, chunks[..i]).gpun < GpuSlots
  {
    ReadLinesLast(s, chunks, i);
    GpunGrows(s, chunks, i + 1);
    assert chunks[..|chunks|] == chunks;
    ReadLineGpun(ReadLines(s, chunks[..i]), chunks[i]);
  }

  lemma ReadLinesLast(s: Reading, chunks: seq<string>, i: nat)
    requires i < |chunks|
    ensures ReadLines(s, chunks[..i + 1]) == ReadLine(ReadLines(s, chunks[..i]), chunks[i])
  {
    var p := chunks[..i + 1];
    assert p[..|p| - 1] == chunks[..i] && p[|p| - 1] == chunks[i];
  }

  /** `gpun` never decreases: a prefix of the lines counts no more GPUs. */
  lemma {:induction false} GpunGrows(s: Reading, chunks: seq<string>, i: nat)
    requires i <= |chunks|
    ensures ReadLines(s, chunks[..i]).gpun <= ReadLines(s, chunks).gpun
    decreases |chunks| - i
  {
    if i < |chunks| {
      var p := chunks[..i + 1];
      assert p[..|p| - 1] == chunks[..i] && p[|p| - 1] == chunks[i];
      ReadLineGpun(ReadLines(s, chunks[..i]), chunks[i]);
      GpunGrows(s, chunks, i + 1);
    } else {
      assert chunks[..i] == chunks;
    }
  }

  /** A line that would overrun a 64-byte field through its `%99[^\n]`. */
  predicate OverrunsNarrowField(line: string) {
    exists f :: f in {VersionName, Shell, PkgmanName} && ScanText(line, f).Some? &&
      |ScanText(line, f).value| >= NarrowSize
  }

  /** The struct info being filled in place. */
  class Info {
    var user: string
    var host: string
    var versionName: string
    var hostModel: string
    var kernel: string
    var cpuModel: string
    var gpuModel: array<string>
    var screenWidth: int
    var screenHeight: int
    var shell: string
    var pkgs: int
    var pkgmanName: string

    predicate Valid()
      reads this
    {
      gpuModel.Length == GpuSlots
    }

    /** The cached fields as a value. */
    function Snapshot(): Record
      reads this, gpuModel
    {
      Record(user, host, versionName, hostModel, kernel, cpuModel, gpuModel[..],
        screenWidth, screenHeight, shell, pkgs, pkgmanName)
    }

    /** A zeroed struct. */
    constructor()
      ensures Valid() && Snapshot() == Zeroed() && fresh(gpuModel)
    {
      user, host, versionName, hostModel, kernel, cpuModel := "", "", "", "", "", "";
      gpuModel := new string[GpuSlots](_ => "");
      screenWidth, screenHeight, shell, pkgs, pkgmanName := 0, 0, "", 0, "";
    }

    /** write_cache: one fprintf of the eleven scalar lines, then a `gpu=` line for
        each entry up to the first empty one. Without an empty entry the loop would
        read past the array. */
    method WriteCache() returns (content: string)
      requires Valid() && exists i :: 0 <= i < GpuSlots && gpuModel[i] == ""
      ensures content == CacheText(Snapshot())
    {
      ghost var r := Snapshot();
      var scalars := ScalarLines(Snapshot());
      content := Lines(scalars);
      ghost var gpus := gpuModel[..];
      ghost var n := FirstEmpty(gpus);
      EmptySlotFound(gpus);
      assert scalars + GpuLines(gpus, 0) == scalars;
      var i := 0;
      while gpuModel[i] != ""
        invariant i <= n < GpuSlots
        invariant content == Lines(scalars + GpuLines(gpus, i))
        decreases n - i
      {
        BeforeFirstEmpty(gpus, i);
        GpuLineWritten(scalars, gpus, i);
        content := content + Key(Gpu) + gpuModel[i] + "\n";
        i := i + 1;
      }
      CacheTextParts(r);
    }

    /** The body of read_cache's loop: the twelve sscanf calls on one line, each
        storing into its field when it converts a value. */
    method ReadLineInto(line: string, gpun: nat) returns (next: nat)
      requires Valid()
      requires GpuCounted(line) ==> gpun < GpuSlots
      modifies this, gpuModel
      ensures Valid() && gpuModel == old(gpuModel)
      ensures Reading(Snapshot(), next) == ReadLine(old(Reading(Snapshot(), gpun)), line)
    {
      var scans := ScanAll(line, Fields);
      ghost var s0 := Reading(Snapshot(), gpun);
      GpuScanCounted(line, scans);
      ScanFirst(scans);
      next := ScanGpu(scans[6], gpun);
      ScanLast(scans);
      StoreFields(s0, scans, Snapshot(), next);
    }

    /** The sscanf calls for user, host, version_name, host_model, kernel and cpu. */
    method ScanFirst(scans: seq<Scanned>)
      requires |scans| == |Fields|
      modifies this
      ensures gpuModel == old(gpuModel)
      ensures screenWidth == old(screenWidth) && screenHeight == old(screenHeight)
      ensures shell == old(shell) && pkgs == old(pkgs) && pkgmanName == old(pkgmanName)
      ensures user == StoredText(scans[0]).GetOr(old(user))
      ensures host == StoredText(scans[1]).GetOr(old(host))
      ensures versionName == StoredText(scans[2]).GetOr(old(versionName))
      ensures hostModel == StoredText(scans[3]).GetOr(old(hostModel))
      ensures kernel == StoredText(scans[4]).GetOr(old(kernel))
      ensures cpuModel == StoredText(scans[5]).GetOr(old(cpuModel))
    {
      var u, h, v := StoredText(scans[0]), StoredText(scans[1]), StoredText(scans[2]);
      var m, k, c := StoredText(scans[3]), StoredText(scans[4]), StoredText(scans[5]);
      user, host, versionName := u.GetOr(user), h.GetOr(host), v.GetOr(versionName);
      hostModel, kernel, cpuModel := m.GetOr(hostModel), k.GetOr(kernel), c.GetOr(cpuModel);
    }

    /** The gpu sscanf: a converted value goes to entry `gpun`, and any non-zero
        return, EOF included, advances the counter. */
    method ScanGpu(gpu: Scanned, gpun: nat) returns (next: nat)
      requires Valid() && (StoredText(gpu).Some? ==> gpun < GpuSlots)
      modifies gpuModel
      ensures StoredText(gpu).Some? ==> gpuModel[..] == old(gpuModel[..])[gpun := StoredText(gpu).value]
      ensures StoredText(gpu).None? ==> gpuModel[..] == old(gpuModel[..])
      ensures gpu.ret != 0 ==> next == gpun + 1
      ensures gpu.ret == 0 ==> next == gpun
    {
      next := gpun;
      if StoredText(gpu).Some? {
        gpuModel[gpun] := StoredText(gpu).value;
      }
      if gpu.ret != 0 {
        next := gpun + 1;
      }
    }

    /** The sscanf calls for screen_width, screen_height, shell, pkgs and pkgman_name. */
    method ScanLast(scans: seq<Scanned>)
      requires |scans| == |Fields|
      modifies this
      ensures gpuModel == old(gpuModel)
      ensures user == old(user) && host == old(host) && versionName == old(versionName)
      ensures hostModel == old(hostModel) && kernel == old(kernel) && cpuModel == old(cpuModel)
      ensures screenWidth == StoredNumber(scans[7], 0).GetOr(old(screenWidth))
      ensures screenHeight == StoredNumber(scans[8], 0).GetOr(old(screenHeight))
      ensures shell == StoredText(scans[9]).GetOr(old(shell))
      ensures pkgs == StoredNumber(scans[10], 0).GetOr(old(pkgs))
      ensures pkgmanName == StoredText(scans[11]).GetOr(old(pkgmanName))
    {
      screenWidth := StoredNumber(scans[7], 0).GetOr(screenWidth);
      screenHeight := StoredNumber(scans[8], 0).GetOr(screenHeight);
      shell := StoredText(scans[9]).GetOr(shell);
      pkgs := StoredNumber(scans[10], 0).GetOr(pkgs);
      pkgmanName := StoredText(scans[11]).GetOr(pkgmanName);
    }

    /** read_cache: 0 when the file cannot be opened (`file` is None), otherwise every
        line fgets returns goes through the twelve sscanf calls, and the result is 1,
        even for an empty file. The GPU counter must stay within the 64 entries and no
        value may overrun a 64-byte field. */
    method ReadCache(file: Option<string>) returns (found: int)
      requires Valid()
      requires file.Some? ==> ReadLines(Reading(Snapshot(), 0), Fgets(file.value, LineSize)).gpun <= GpuSlots
      requires file.Some? ==> forall l :: l in Fgets(file.value, LineSize) ==> !OverrunsNarrowField(l)
      modifies this, gpuModel
      ensures Valid() && gpuModel == old(gpuModel)
      ensures found == if file.None? then 0 else 1
      ensures file.None? ==> Snapshot() == old(Snapshot())
      ensures file.Some? ==>
        Snapshot() == ReadLines(Reading(old(Snapshot()), 0), Fgets(file.value, LineSize)).info
    {
      if file.None? {
        return 0;
      }
      var chunks := Fgets(file.value, LineSize);
      ghost var start := Reading(Snapshot(), 0);
      var gpun := 0;
      var i := 0;
      while i < |chunks|
        invariant i <= |chunks| && Valid() && gpuModel == old(gpuModel)
        invariant Reading(Snapshot(), gpun) == ReadLines(start, chunks[..i])
      {
        ReadLinesStep(start, chunks, i);
        gpun := ReadLineInto(chunks[i], gpun);
        i := i + 1;
      }
      assert chunks[..i] == chunks;
      return 1;
    }
  }

  // ------------------------------------------------------------------
  // Reading back what write_cache wrote

  /** The fields of write_cache's fprintf, in the order it prints them. */
  const ScalarFields: seq<Field> :=
    [User, Host, VersionName, HostModel, Kernel, Cpu, ScreenWidth, ScreenHeight, Shell, Pkgs, PkgmanName]

  /** The value of a field other than gpu. */
  function FieldValue(r: Record, f: Field): (v: Value)
    requires f != Gpu
    ensures v.Text? <==> !Numeric(f)
  {
    match f
    case User => Text(r.user)
    case Host => Text(r.host)
    case VersionName => Text(r.versionName)
    case HostModel => Text(r.hostModel)
    case Kernel => Text(r.kernel)
    case Cpu => Text(r.cpuModel)
    case ScreenWidth => Number(r.screenWidth)
    case ScreenHeight => Number(r.screenHeight)
    case Shell => Text(r.shell)
    case Pkgs => Number(r.pkgs)
    case PkgmanName => Text(r.pkgmanName)
  }

  /** How `%s` or `%d` prints a value. */
  function Printed(v: Value): string {
    match v
    case Text(s) => s
    case Number(n) => IntString(n)
  }

  lemma ScalarLineAt(r: Record, i: nat)
    requires i < |ScalarFields|
    ensures ScalarFields[i] != Gpu
    ensures ScalarLines(r)[i] == Key(ScalarFields[i]) + Printed(FieldValue(r, ScalarFields[i]))
  {
    var ls := ScalarLines(r);
    if i < 6 {
      assert ls[i] == Key(ScalarFields[i]) + FieldValue(r, ScalarFields[i]).s;
    } else if i == 6 || i == 7 || i == 9 {
      assert ls[i] == Key(ScalarFields[i]) + IntString(FieldValue(r, ScalarFields[i]).n);
    } else {
      assert ls[i] == Key(ScalarFields[i]) + FieldValue(r, ScalarFields[i]).s;
    }
  }

  /** The largest value a field can take and still come back whole: the field
      width of `%99[^\n]`, or 63 characters for the 64-byte fields. */
  function Room(f: Field): nat {
    if f == VersionName || f == Shell || f == PkgmanName then NarrowSize - 1 else FieldWidth
  }

  /** A value that write_cache prints on one line and that read_cache takes back
      whole: text without a newline within the room of its field, or a C int. */
  predicate Fits(v: Value, room: nat) {
    match v
    case Text(s) => '\n' !in s && |s| <= room
    case Number(n) => IsInt32(n)
  }

  /** A record whose cache file reads back: every value fits, and an empty GPU
      entry ends write_cache's loop within the array. */
  predicate Cacheable(w: Record) {
    && GpusCacheable(w)
    && (forall f :: f != Gpu ==> Fits(FieldValue(w, f), Room(f)))
  }

  /** The GPU part of Cacheable: a slot left empty, and every GPU before it fits. */
  predicate GpusCacheable(w: Record) {
    && |w.gpus| == GpuSlots && FirstEmpty(w.gpus) < GpuSlots
    && (forall i :: 0 <= i < FirstEmpty(w.gpus) ==> Fits(Text(w.gpus[i]), FieldWidth))
  }

  /** The chunks fgets returns for lines that fit its buffer. */
  function Chunked(ls: seq<string>): (cs: seq<string>)
    ensures |cs| == |ls|
  {
    seq(|ls|, i requires 0 <= i < |ls| => ls[i] + "\n")
  }

  /** The record read_cache restores into a zeroed struct: the scalar fields, and
      the GPU entries before the first empty one, where write_cache stopped. */
  function Written(w: Record): (r: Record)
    requires |w.gpus| == GpuSlots
    ensures |r.gpus| == GpuSlots
  {
    w.(gpus := seq(GpuSlots, i requires 0 <= i < GpuSlots => if i < FirstEmpty(w.gpus) then w.gpus[i] else ""))
  }

  /** The `%99[^\n]` sscanf of a key on the line `<key><v>\n` stores `v`, or
      nothing when `v` is empty. */
  lemma ScanPrintedText(f: Field, v: string)
    requires !Numeric(f) && Fits(Text(v), FieldWidth)
    ensures v != "" ==> KeyedScan(Key(f) + v + "\n", f) == Scanned(1, [Text(v)])
    ensures v == "" ==> KeyedScan(Key(f) + v + "\n", f) == Scanned(0, [])
  {
    var line := Key(f) + v + "\n";
    KeysHaveNoSpace(f);
    KeyedScanIsSscanf(line, f);
    TextLineStoresValue(Key(f), v, FieldWidth);
  }

  /** The sscanf of the key of `f` on the line printed for a fitting value stores
      that value; an empty text stores nothing. */
  lemma ScanPrinted(f: Field, v: Value)
    requires f != Gpu && (v.Text? <==> !Numeric(f)) && Fits(v, FieldWidth)
    ensures v != Text("") ==> KeyedScan(Key(f) + Printed(v) + "\n", f) == Scanned(1, [v])
    ensures v == Text("") ==> KeyedScan(Key(f) + Printed(v) + "\n", f) == Scanned(0, [])
  {
    var line := Key(f) + Printed(v) + "\n";
    KeysHaveNoSpace(f);
    KeyedScanIsSscanf(line, f);
    match v
    case Text(t) =>
      TextLineStoresValue(Key(f), t, FieldWidth);
    case Number(n) =>
      IntegerLineStoresValue(Key(f), n);
  }

  /** The sscanf call of one field, when it stores a value, changes that field alone. */
  lemma AssignStores(s: Reading, f: Field, v: Value)
    requires f != Gpu && (v.Text? <==> !Numeric(f))
    ensures var t := Assign(s, f, Scanned(1, [v]));
      && t.gpun == s.gpun && t.info.gpus == s.info.gpus
      && FieldValue(t.info, f) == v
      && forall g :: g != Gpu && g != f ==> FieldValue(t.info, g) == FieldValue(s.info, g)
  {
  }

  /** The sscanf call of a field that stores nothing and returns 0 changes nothing. */
  lemma AssignNothing(s: Reading, f: Field)
    ensures Assign(s, f, Scanned(0, [])) == s
  {
  }

  /** Reading the line write_cache printed for a field sets that field to the
      value printed, and nothing else, provided an empty text finds the field empty. */
  lemma ReadScalarLine(s: Reading, f: Field, v: Value)
    requires f != Gpu && (v.Text? <==> !Numeric(f)) && Fits(v, FieldWidth)
    requires v == Text("") ==> FieldValue(s.info, f) == v
    ensures var t := ReadLine(s, Key(f) + Printed(v) + "\n");
      && t.gpun == s.gpun && t.info.gpus == s.info.gpus
      && FieldValue(t.info, f) == v
      && forall g :: g != Gpu && g != f ==> FieldValue(t.info, g) == FieldValue(s.info, g)
  {
    var line := Key(f) + Printed(v) + "\n";
    ReadKeyedLine(s, line, f);
    ScanPrinted(f, v);
    if v == Text("") {
      AssignNothing(s, f);
    } else {
      AssignStores(s, f, v);
    }
  }

  /** Where write_cache's fprintf prints a field other than gpu. */
  function PrintIndex(f: Field): nat {
    match f
    case User => 0
    case Host => 1
    case VersionName => 2
    case HostModel => 3
    case Kernel => 4
    case Cpu => 5
    case Gpu => 11
    case ScreenWidth => 6
    case ScreenHeight => 7
    case Shell => 8
    case Pkgs => 9
    case PkgmanName => 10
  }

  lemma PrintIndexAt(k: nat)
    requires k < |ScalarFields|
    ensures PrintIndex(ScalarFields[k]) == k
  {
  }

  /** After the first k lines of write_cache's fprintf, read into a zeroed struct:
      the fields of those lines hold the values printed, the others are still zero. */
  predicate ScalarsSoFar(t: Reading, w: Record, k: nat)
    requires k <= |ScalarFields|
  {
    && t.gpun == 0 && t.info.gpus == Zeroed().gpus
    && forall f :: f != Gpu ==>
      FieldValue(t.info, f) == if PrintIndex(f) < k then FieldValue(w, f) else FieldValue(Zeroed(), f)
  }

  /** Reading the next line of write_cache's fprintf. */
  lemma ScalarStep(s: Reading, w: Record, k: nat)
    requires Cacheable(w) && k < |ScalarFields| && ScalarsSoFar(s, w, k)
    ensures ScalarsSoFar(ReadLine(s, ScalarLines(w)[k] + "\n"), w, k + 1)
  {
    var f := ScalarFields[k];
    var v := FieldValue(w, f);
    ScalarLineAt(w, k);
    PrintIndexAt(k);
    assert Fits(v, Room(f));
    assert Fits(v, FieldWidth);
    ReadScalarLine(s, f, v);
    SoFarStep(s, ReadLine(s, ScalarLines(w)[k] + "\n"), w, k);
  }

  /** A reading that stores the k-th printed field and keeps every other one takes
      the first k lines to the first k + 1. */
  lemma SoFarStep(s: Reading, t: Reading, w: Record, k: nat)
    requires k < |ScalarFields| && ScalarsSoFar(s, w, k)
    requires var f := ScalarFields[k];
      && t.gpun == s.gpun && t.info.gpus == s.info.gpus
      && FieldValue(t.info, f) == FieldValue(w, f)
      && forall g :: g != Gpu && g != f ==> FieldValue(t.info, g) == FieldValue(s.info, g)
    ensures ScalarsSoFar(t, w, k + 1)
  {
    var f := ScalarFields[k];
    PrintIndexAt(k);
    forall g | g != Gpu
      ensures FieldValue(t.info, g)
        == if PrintIndex(g) < k + 1 then FieldValue(w, g) else FieldValue(Zeroed(), g)
    {
      if g != f {
        assert FieldValue(t.info, g) == FieldValue(s.info, g);
      }
    }
  }

  lemma {:induction false} ReadScalars(w: Record, k: nat)
    requires Cacheable(w) && k <= |ScalarFields|
    ensures ScalarsSoFar(ReadLines(Reading(Zeroed(), 0), Chunked(ScalarLines(w))[..k]), w, k)
  {
    var cs := Chunked(ScalarLines(w));
    if k == 0 {
      assert cs[..0] == [];
    } else {
      ReadScalars(w, k - 1);
      var p := cs[..k];
      assert p[..|p| - 1] == cs[..k - 1] && p[|p| - 1] == cs[k - 1];
      ScalarStep(ReadLines(Reading(Zeroed(), 0), cs[..k - 1]), w, k - 1);
    }
  }

  /** A non-empty `gpu=` line that fits is stored at entry `gpun` and counted. */
  lemma ReadGpuLine(s: Reading, v: string)
    requires v != [] && Fits(Text(v), FieldWidth)
    ensures var t := ReadLine(s, Key(Gpu) + v + "\n");
      && t.gpun == s.gpun + 1
      && t.info == s.info.(gpus := if s.gpun < |s.info.gpus| then s.info.gpus[s.gpun := v] else s.info.gpus)
  {
    var line := Key(Gpu) + v + "\n";
    ScanPrintedText(Gpu, v);
    ReadKeyedLine(s, line, Gpu);
    AssignGpu(s, v);
  }

  /** The gpu sscanf call that stores `v`. */
  lemma AssignGpu(s: Reading, v: string)
    ensures Assign(s, Gpu, Scanned(1, [Text(v)]))
         == Reading(s.info.(gpus := if s.gpun < |s.info.gpus| then s.info.gpus[s.gpun := v] else s.info.gpus), s.gpun + 1)
  {
  }

  /** The GPU entries of a zeroed struct after `j` `gpu=` lines of `w`. */
  function GpusSoFar(w: Record, j: nat): (gpus: seq<string>)
    requires |w.gpus| == GpuSlots
    ensures |gpus| == GpuSlots
  {
    seq(GpuSlots, i requires 0 <= i < GpuSlots => if i < j then w.gpus[i] else "")
  }

  /** Reading the next `gpu=` line. */
  lemma GpuStep(info: Record, w: Record, j: nat)
    requires GpusCacheable(w) && j < FirstEmpty(w.gpus) && info.gpus == GpusSoFar(w, j)
    ensures ReadLine(Reading(info, j), Key(Gpu) + w.gpus[j] + "\n")
         == Reading(info.(gpus := GpusSoFar(w, j + 1)), j + 1)
  {
    ReadGpuLine(Reading(info, j), w.gpus[j]);
    GpusSoFarNext(w, j);
  }

  lemma GpusSoFarNext(w: Record, j: nat)
    requires |w.gpus| == GpuSlots && j < GpuSlots
    ensures GpusSoFar(w, j)[j := w.gpus[j]] == GpusSoFar(w, j + 1)
  {
    var a, b := GpusSoFar(w, j)[j := w.gpus[j]], GpusSoFar(w, j + 1);
    assert forall i :: 0 <= i < GpuSlots ==> a[i] == b[i];
  }

  lemma {:induction false} ReadGpus(s0: Reading, w: Record, j: nat)
    requires GpusCacheable(w) && j <= FirstEmpty(w.gpus)
    requires s0.gpun == 0 && s0.info.gpus == Zeroed().gpus
    ensures ReadLines(s0, Chunked(GpuLines(w.gpus, FirstEmpty(w.gpus)))[..j])
         == Reading(s0.info.(gpus := GpusSoFar(w, j)), j)
  {
    var cs := Chunked(GpuLines(w.gpus, FirstEmpty(w.gpus)));
    if j == 0 {
      assert cs[..0] == [];
      assert GpusSoFar(w, 0) == Zeroed().gpus;
      assert s0.info.(gpus := GpusSoFar(w, 0)) == s0.info;
    } else {
      ReadGpus(s0, w, j - 1);
      ReadGpusStep(s0, w, j - 1);
    }
  }

  /** From `j` GPU lines read to `j + 1`. */
  lemma ReadGpusStep(s0: Reading, w: Record, j: nat)
    requires GpusCacheable(w) && j < FirstEmpty(w.gpus)
    requires ReadLines(s0, Chunked(GpuLines(w.gpus, FirstEmpty(w.gpus)))[..j])
          == Reading(s0.info.(gpus := GpusSoFar(w, j)), j)
    ensures ReadLines(s0, Chunked(GpuLines(w.gpus, FirstEmpty(w.gpus)))[..j + 1])
         == Reading(s0.info.(gpus := GpusSoFar(w, j + 1)), j + 1)
  {
    var cs := Chunked(GpuLines(w.gpus, FirstEmpty(w.gpus)));
    ReadLinesLast(s0, cs, j);
    GpuChunkAt(w, j);
    GpuStep(s0.info.(gpus := GpusSoFar(w, j)), w, j);
  }

  /** The `i`-th chunk of the GPU section is the `i`-th GPU's line. */
  lemma GpuChunkAt(w: Record, i: nat)
    requires i < FirstEmpty(w.gpus)
    ensures Chunked(GpuLines(w.gpus, FirstEmpty(w.gpus)))[i] == Key(Gpu) + w.gpus[i] + "\n"
  {
  }

  lemma KeyBounds(f: Field)
    ensures |Key(f)| <= 14 && '\n' !in Key(f)
  {
    KeysHaveNoSpace(f);
  }

  /** Printed values that fit take one line of at most 99 characters. */
  lemma PrintedFits(v: Value, room: nat)
    requires Fits(v, room) && room <= FieldWidth
    ensures '\n' !in Printed(v) && |Printed(v)| <= FieldWidth
  {
    match v
    case Text(t) =>
    case Number(n) =>
      IntStringLength(n);
      var m := if n < 0 then -n else n;
      assert forall i :: 0 <= i < |NatString(m)| ==> NatString(m)[i] != '\n';
  }

  /** Every line write_cache prints for a cacheable record fits fgets's buffer. */
  lemma CacheLinesShort(w: Record)
    requires Cacheable(w)
    ensures forall i :: 0 <= i < |CacheLines(w)| ==> ShortLine(CacheLines(w)[i], LineSize)
  {
    var ls := CacheLines(w);
    forall i | 0 <= i < |ls|
      ensures ShortLine(ls[i], LineSize)
    {
      if i < |ScalarFields| {
        var f := ScalarFields[i];
        ScalarLineAt(w, i);
        KeyBounds(f);
        PrintedFits(FieldValue(w, f), Room(f));
        assert ls[i] == Key(f) + Printed(FieldValue(w, f));
      } else {
        var j := i - |ScalarFields|;
        KeyBounds(Gpu);
        assert ls[i] == Key(Gpu) + w.gpus[j];
        assert Fits(Text(w.gpus[j]), FieldWidth);
      }
    }
  }

  /** Two records that agree on every field are equal. */
  lemma SameFields(a: Record, b: Record)
    requires a.gpus == b.gpus && forall f :: f != Gpu ==> FieldValue(a, f) == FieldValue(b, f)
    ensures a == b
  {
    assert FieldValue(a, User) == FieldValue(b, User);
    assert FieldValue(a, Host) == FieldValue(b, Host);
    assert FieldValue(a, VersionName) == FieldValue(b, VersionName);
    assert FieldValue(a, HostModel) == FieldValue(b, HostModel);
    assert FieldValue(a, Kernel) == FieldValue(b, Kernel);
    assert FieldValue(a, Cpu) == FieldValue(b, Cpu);
    assert FieldValue(a, ScreenWidth) == FieldValue(b, ScreenWidth);
    assert FieldValue(a, ScreenHeight) == FieldValue(b, ScreenHeight);
    assert FieldValue(a, Shell) == FieldValue(b, Shell);
    assert FieldValue(a, Pkgs) == FieldValue(b, Pkgs);
    assert FieldValue(a, PkgmanName) == FieldValue(b, PkgmanName);
  }

  /** The chunks fgets returns for the cache file of a cacheable record: one per line. */
  lemma CacheChunks(w: Record)
    requires Cacheable(w)
    ensures Fgets(CacheText(w), LineSize)
         == Chunked(ScalarLines(w)) + Chunked(GpuLines(w.gpus, FirstEmpty(w.gpus)))
  {
    CacheLinesShort(w);
    FgetsOfShortLines(CacheLines(w), LineSize);
  }

  /** The value of a field other than gpu does not depend on the GPU entries. */
  lemma FieldValueIgnoresGpus(r: Record, gpus: seq<string>)
    ensures forall f :: f != Gpu ==> FieldValue(r.(gpus := gpus), f) == FieldValue(r, f)
  {
  }

  /** After the eleven lines of write_cache's fprintf every scalar field is restored. */
  lemma ScalarsAllRead(w: Record)
    requires Cacheable(w)
    ensures var s := ReadLines(Reading(Zeroed(), 0), Chunked(ScalarLines(w)));
      && s.gpun == 0 && s.info.gpus == Zeroed().gpus
      && forall f :: f != Gpu ==> FieldValue(s.info, f) == FieldValue(w, f)
  {
    var a := Chunked(ScalarLines(w));
    ReadScalars(w, |ScalarFields|);
    assert a[..|ScalarFields|] == a;
    AllScalarsSoFar(ReadLines(Reading(Zeroed(), 0), a), w);
  }

  /** Once every scalar line is read, every scalar field holds its printed value. */
  lemma AllScalarsSoFar(t: Reading, w: Record)
    requires ScalarsSoFar(t, w, |ScalarFields|)
    ensures t.gpun == 0 && t.info.gpus == Zeroed().gpus
    ensures forall f :: f != Gpu ==> FieldValue(t.info, f) == FieldValue(w, f)
  {
    forall f | f != Gpu
      ensures FieldValue(t.info, f) == FieldValue(w, f)
    {
      assert PrintIndex(f) < |ScalarFields|;
    }
  }

  /** read_cache on the file write_cache wrote, into a zeroed struct, restores every
      scalar field and the GPU entries before the first empty one, and counts them. */
  lemma CacheRoundTrip(w: Record)
    requires Cacheable(w)
    ensures ReadLines(Reading(Zeroed(), 0), Fgets(CacheText(w), LineSize)) == Reading(Written(w), FirstEmpty(w.gpus))
  {
    var a, b := Chunked(ScalarLines(w)), Chunked(GpuLines(w.gpus, FirstEmpty(w.gpus)));
    CacheChunks(w);
    ReadLinesAppend(Reading(Zeroed(), 0), a, b);
    ScalarsAllRead(w);
    var s := ReadLines(Reading(Zeroed(), 0), a);
    GpusAllRead(s, w);
    Restored(s.info, w);
  }

  /** After the scalar lines, the `gpu=` lines restore the GPU entries. */
  lemma GpusAllRead(s: Reading, w: Record)
    requires Cacheable(w) && s.gpun == 0 && s.info.gpus == Zeroed().gpus
    ensures ReadLines(s, Chunked(GpuLines(w.gpus, FirstEmpty(w.gpus))))
         == Reading(s.info.(gpus := Written(w).gpus), FirstEmpty(w.gpus))
  {
    var n := FirstEmpty(w.gpus);
    var b := Chunked(GpuLines(w.gpus, n));
    ReadGpus(s, w, n);
    assert b[..n] == b;
    assert GpusSoFar(w, n) == Written(w).gpus;
  }

  /** A record with the scalar fields of `w` and the GPU entries written for `w` is
      the record written. */
  lemma Restored(info: Record, w: Record)
    requires |w.gpus| == GpuSlots
    requires forall f :: f != Gpu ==> FieldValue(info, f) == FieldValue(w, f)
    ensures info.(gpus := Written(w).gpus) == Written(w)
  {
    FieldValueIgnoresGpus(info, Written(w).gpus);
    FieldValueIgnoresGpus(w, Written(w).gpus);
    SameFields(info.(gpus := Written(w).gpus), Written(w));
  }

  /** A line that starts with no key and is no prefix of one changes nothing. */
  lemma UnknownLineIgnored(s: Reading, line: string)
    requires forall f :: !(Key(f) <= line) && !(line <= Key(f))
    ensures ReadLine(s, line) == s
  {
    var scans := ScanAll(line, Fields);
    forall i | 0 <= i < |Fields|
      ensures scans[i] == Scanned(0, [])
    {
      ScanAllAt(line, Fields, i);
      assert !(Key(Fields[i]) <= line) && !(line <= Key(Fields[i]));
    }
  }

  /** The EOF quirk of read_cache: a last chunk that ends inside `gpu=` (the key
      itself included, as in a file ending "gpu=" without a newline) makes the gpu
      sscanf return EOF, which is non-zero, so `gpun` advances with nothing stored. */
  lemma TruncatedGpuLineCounted(line: string)
    requires line <= Key(Gpu)
    ensures GpuCounted(line) && StoredText(KeyedScan(line, Gpu)).None?
  {
    if Key(Gpu) <= line {
      assert line == Key(Gpu);
      assert line[|Key(Gpu)|..] == [];
    }
  }

  /** An empty `gpu=` line stores nothing and is not counted. */
  lemma EmptyGpuNotCounted()
    ensures !GpuCounted(Key(Gpu) + "\n") && StoredText(KeyedScan(Key(Gpu) + "\n", Gpu)).None?
  {
    ScanPrintedText(Gpu, "");
  }

  /** A line of another key is never counted as a GPU. */
  lemma OtherLineNotCounted(line: string, f: Field)
    requires f != Gpu && Key(f) <= line
    ensures !GpuCounted(line)
  {
    OtherKeyFails(f, Gpu, line);
  }

  /** A line of one key overruns a 64-byte field only through that key. */
  lemma KeyedLineOverrun(line: string, f: Field)
    requires Key(f) <= line
    requires ScanText(line, f).Some? && f in {VersionName, Shell, PkgmanName} ==>
      |ScanText(line, f).value| < NarrowSize
    ensures !OverrunsNarrowField(line)
  {
    forall g | g in {VersionName, Shell, PkgmanName} && g != f
      ensures ScanText(line, g).None?
    {
      OtherKeyFails(f, g, line);
    }
  }

  lemma ScalarLineFits(w: Record, i: nat)
    requires Cacheable(w) && i < |ScalarFields|
    ensures !OverrunsNarrowField(ScalarLines(w)[i] + "\n")
  {
    var f := ScalarFields[i];
    var v := FieldValue(w, f);
    var l := ScalarLines(w)[i] + "\n";
    ScalarLineAt(w, i);
    assert l == Key(f) + Printed(v) + "\n";
    assert Fits(v, Room(f));
    if !Numeric(f) {
      ScanPrintedText(f, v.s);
    }
    KeyedLineOverrun(l, f);
  }

  /** The cache file of a cacheable record meets read_cache's demands on a zeroed
      struct: at most 64 GPU lines are counted and no value overruns a 64-byte field. */
  lemma CacheFileFits(w: Record)
    requires Cacheable(w)
    ensures ReadLines(Reading(Zeroed(), 0), Fgets(CacheText(w), LineSize)).gpun <= GpuSlots
    ensures forall l :: l in Fgets(CacheText(w), LineSize) ==> !OverrunsNarrowField(l)
  {
    CacheRoundTrip(w);
    CacheChunks(w);
    ChunksFit(w);
  }

  lemma ChunksFit(w: Record)
    requires Cacheable(w)
    ensures var cs := Chunked(ScalarLines(w)) + Chunked(GpuLines(w.gpus, FirstEmpty(w.gpus)));
      forall i :: 0 <= i < |cs| ==> !OverrunsNarrowField(cs[i])
  {
    var a, b := Chunked(ScalarLines(w)), Chunked(GpuLines(w.gpus, FirstEmpty(w.gpus)));
    forall i | 0 <= i < |a + b|
      ensures !OverrunsNarrowField((a + b)[i])
    {
      var l := (a + b)[i];
      if i < |a| {
        assert l == ScalarLines(w)[i] + "\n";
        ScalarLineFits(w, i);
      } else {
        assert l == Key(Gpu) + w.gpus[i - |a|] + "\n";
        KeyedLineOverrun(l, Gpu);
      }
    }
  }

}
