/**
 * parse_config: the configuration file is read chunk by chunk with fgets, and
 * every chunk is matched against the `distro=`, `ascii=`, `image="..."` and the
 * twelve `<switch>=` formats in turn. A switch format reads the word of letters of
 * "truefalse" that follows its key into a scratch buffer that is cleared once per
 * line. `user=` shows the user only for exactly "true". Every other show switch is
 * hidden only by exactly "false". `ascii=false` selects image mode, and a matched
 * `image="..."` forces it. Also the UWUFETCH_CACHE_ENABLED test in main.
 */
module Config {
  import opened Wrappers
  import opened Stdio

  /** The members of struct configuration, in declaration order. */
  datatype Switch =
    | Ascii | User | Os | Host | Kernel | Cpu | Gpu | Ram | Resolution | Shell | Pkgs | Uptime | Colors

  /** struct configuration: imageMode is ascii_image_flag (true: an image is printed). */
  datatype Configuration = Configuration(
    imageMode: bool, showUser: bool, showOs: bool, showHost: bool, showKernel: bool,
    showCpu: bool, showGpu: bool, showRam: bool, showResolution: bool, showShell: bool,
    showPkgs: bool, showUptime: bool, showColors: bool)

  /** The configuration before any line is read: ascii art, everything shown. */
  const Defaults := Configuration(false, true, true, true, true, true, true, true, true, true, true, true, true)

  function Get(c: Configuration, s: Switch): bool {
    match s
    case Ascii => c.imageMode
    case User => c.showUser
    case Os => c.showOs
    case Host => c.showHost
    case Kernel => c.showKernel
    case Cpu => c.showCpu
    case Gpu => c.showGpu
    case Ram => c.showRam
    case Resolution => c.showResolution
    case Shell => c.showShell
    case Pkgs => c.showPkgs
    case Uptime => c.showUptime
    case Colors => c.showColors
  }

  /** Assigns one member of the configuration. */
  function Set(c: Configuration, s: Switch, b: bool): Configuration {
    Configuration(
      if s == Ascii then b else c.imageMode,
      if s == User then b else c.showUser,
      if s == Os then b else c.showOs,
      if s == Host then b else c.showHost,
      if s == Kernel then b else c.showKernel,
      if s == Cpu then b else c.showCpu,
      if s == Gpu then b else c.showGpu,
      if s == Ram then b else c.showRam,
      if s == Resolution then b else c.showResolution,
      if s == Shell then b else c.showShell,
      if s == Pkgs then b else c.showPkgs,
      if s == Uptime then b else c.showUptime,
      if s == Colors then b else c.showColors)
  }

  /** Assigning a member changes that member and no other. */
  lemma SetGet(c: Configuration, s: Switch, b: bool, t: Switch)
    ensures Get(Set(c, s, b), t) == if t == s then b else Get(c, t)
  {
  }

  lemma DefaultsShowEverything(s: Switch)
    ensures Get(Defaults, s) == (s != Ascii)
  {
  }

  // ------------------------------------------------------------------
  // The formats

  /** The literal text that starts the format of a switch. */
  function Key(s: Switch): string {
    match s
    case Ascii => "ascii="
    case User => "user="
    case Os => "os="
    case Host => "host="
    case Kernel => "kernel="
    case Cpu => "cpu="
    case Gpu => "gpu="
    case Ram => "ram="
    case Resolution => "resolution="
    case Shell => "shell="
    case Pkgs => "pkgs="
    case Uptime => "uptime="
    case Colors => "colors="
  }

  /** The letters of `%[truefalse]`. */
  const TrueFalse: set<char> := {'t', 'r', 'u', 'e', 'f', 'a', 'l', 's'}

  /** `%[truefalse]`. */
  const TrueFalseWordFormat: seq<Directive> := [Scanset(TrueFalse, false, 0)]

  /** `<key>=%[truefalse]`. */
  function SwitchFormat(s: Switch): seq<Directive> {
    Literal(Key(s)) + TrueFalseWordFormat
  }

  const DistroKey := "distro="
  /** `distro=%s`. */
  const DistroFormat := Literal(DistroKey) + [Word]

  const ImageKey := "image=\""
  /** `image="%[^"]"`. */
  const ImageFormat := Literal(ImageKey) + [Scanset({'"'}, true, 0), Lit('"')]

  /** `distro=%s`, by how the key meets the line. */
  function DistroScan(line: string): Scanned {
    if DistroKey <= line then Run(line[|DistroKey|..], [Word], [])
    else if line <= DistroKey then Scanned(-1, [])
    else Scanned(0, [])
  }

  lemma DistroScanIsSscanf(line: string)
    ensures Sscanf(line, DistroFormat) == DistroScan(line)
  {
    assert NoSpace(DistroKey);
    SscanfAfterLiteral(DistroKey, line, [Word]);
  }

  /** `image="%[^"]"`, by how the key meets the line. */
  function ImageScan(line: string): Scanned {
    if ImageKey <= line then Run(line[|ImageKey|..], [Scanset({'"'}, true, 0), Lit('"')], [])
    else if line <= ImageKey then Scanned(-1, [])
    else Scanned(0, [])
  }

  lemma ImageScanIsSscanf(line: string)
    ensures Sscanf(line, ImageFormat) == ImageScan(line)
  {
    assert NoSpace(ImageKey);
    SscanfAfterLiteral(ImageKey, line, [Scanset({'"'}, true, 0), Lit('"')]);
  }

  /** A key: text ending in its only '='. */
  predicate KeyShaped(k: string) {
    |k| > 0 && k[|k| - 1] == '=' && forall i :: 0 <= i < |k| - 1 ==> k[i] != '='
  }

  lemma KeysShaped(s: Switch)
    ensures KeyShaped(Key(s)) && NoSpace(Key(s))
  {
    KeysHaveNoSpace(s);
  }

  lemma KeysHaveNoSpace(s: Switch)
    ensures NoSpace(Key(s))
  {
    match s
    case Ascii => assert NoSpace("ascii=");
    case User => assert NoSpace("user=");
    case Os => assert NoSpace("os=");
    case Host => assert NoSpace("host=");
    case Kernel => assert NoSpace("kernel=");
    case Cpu => assert NoSpace("cpu=");
    case Gpu => assert NoSpace("gpu=");
    case Ram => assert NoSpace("ram=");
    case Resolution => assert NoSpace("resolution=");
    case Shell => assert NoSpace("shell=");
    case Pkgs => assert NoSpace("pkgs=");
    case Uptime => assert NoSpace("uptime=");
    case Colors => assert NoSpace("colors=");
  }

  /** Of two keys, one can start the other only by being the other. */
  lemma ShapedPrefix(a: string, b: string)
    requires KeyShaped(a) && KeyShaped(b)
    ensures a <= b ==> a == b
  {
    if a <= b {
      assert b[|a| - 1] == '=';
    }
  }

  // ------------------------------------------------------------------
  // What a line says to a switch

  /** The run of letters of "truefalse" that starts `rest`. */
  function TrueFalseWord(rest: string): string {
    rest[..ScansetRun(rest, TrueFalse, false, 0)]
  }

  /** What a line says to a switch: None when the line does not start with the key
      followed by a letter of "truefalse", unless it ends inside or right after the
      key, which is Some(""); otherwise the word after the key. */
  function Answer(line: string, s: Switch): Option<string> {
    var key := Key(s);
    if key <= line then
      var w := TrueFalseWord(line[|key|..]);
      if w != [] then Some(w) else if line == key then Some([]) else None
    else if line <= key then Some([])
    else None
  }

  /** The value a switch takes when its sscanf fires and the buffer holds `word`. */
  function Decide(s: Switch, word: string): bool {
    match s
    case Ascii => word == "false"
    case User => word == "true"
    case _ => word != "false"
  }

  /** A switch after a line that says `a` to it. */
  function Effect(before: bool, s: Switch, a: Option<string>): bool {
    match a
    case None => before
    case Some(w) => Decide(s, w)
  }

  /** sscanf with a switch format, by the three ways the key can meet the line:
      the key starts the line and the scanset reads what follows; the line ends
      inside the key (EOF); or the line differs from the key (a matching failure). */
  function SwitchScan(line: string, s: Switch): Scanned {
    var key := Key(s);
    if key <= line then Run(line[|key|..], TrueFalseWordFormat, [])
    else if line <= key then Scanned(-1, [])
    else Scanned(0, [])
  }

  lemma SwitchScanIsSscanf(line: string, s: Switch)
    ensures Sscanf(line, SwitchFormat(s)) == SwitchScan(line, s)
  {
    KeysShaped(s);
    SscanfAfterLiteral(Key(s), line, TrueFalseWordFormat);
  }

  /** A switch statement fires (sscanf returns non-zero) exactly when the line says
      something to the switch, and stores exactly the non-empty words. */
  lemma SwitchScanAnswers(line: string, s: Switch)
    ensures (SwitchScan(line, s).ret != 0) == Answer(line, s).Some?
    ensures Answer(line, s).Some? && Answer(line, s).value != [] ==>
      StoredText(SwitchScan(line, s)) == Answer(line, s)
    ensures !(Answer(line, s).Some? && Answer(line, s).value != []) ==>
      StoredText(SwitchScan(line, s)) == None
  {
    var key := Key(s);
    if key <= line {
      var rest := line[|key|..];
      var n := ScansetRun(rest, TrueFalse, false, 0);
      assert rest == [] <==> line == key;
      if n > 0 {
        assert Run(rest, TrueFalseWordFormat, []) == Run(rest[n..], [], [Text(rest[..n])]);
      }
    }
  }

  /** The line did not end inside or right after the key of any switch. */
  predicate EndsInNoKey(line: string) {
    forall s :: !(line <= Key(s))
  }

  /** A line that gives a switch a word runs past every key. */
  lemma WordEndsInNoKey(line: string, t: Switch)
    requires Answer(line, t).Some? && Answer(line, t).value != []
    ensures EndsInNoKey(line)
  {
    KeysShaped(t);
    assert Key(t) <= line && |Key(t)| < |line|;
    forall s ensures !(line <= Key(s)) {
      KeysShaped(s);
      ShapedPrefix(Key(t), Key(s));
    }
  }

  // ------------------------------------------------------------------
  // One line

  /** One `if (sscanf(line, "<key>=%[truefalse]", buffer)) <switch> = ...;`: the
      configuration and the buffer after it. */
  function SwitchStep(c: Configuration, buffer: string, line: string, s: Switch): (Configuration, string) {
    var r := SwitchScan(line, s);
    var b := StoredText(r).GetOr(buffer);
    if r.ret != 0 then (Set(c, s, Decide(s, b)), b) else (c, b)
  }

  /** The switch statements for `ss`, in order. */
  function SwitchSteps(c: Configuration, buffer: string, line: string, ss: seq<Switch>): (Configuration, string)
    decreases |ss|
  {
    if ss == [] then (c, buffer)
    else
      var p := SwitchSteps(c, buffer, line, ss[..|ss| - 1]);
      SwitchStep(p.0, p.1, line, ss[|ss| - 1])
  }

  /** The switches after `ascii=` and `image=`, in the order the program tests them. */
  const ShowSwitches := [User, Os, Host, Kernel, Cpu, Gpu, Ram, Resolution, Shell, Pkgs, Uptime, Colors]

  /** `~` at the start of an image path stands for /home/<user>. */
  function ExpandHome(name: string, user: string): string {
    if name != [] && name[0] == '~' then "/home/" + user + name[1..] else name
  }

  /** What the parse updates: the configuration and the two members of struct info
      it writes, version_name and image_name. */
  datatype Parsed = Parsed(config: Configuration, versionName: string, imageName: string)

  /** The image statement: when its sscanf fires, the path read (or the one already
      there, when nothing was read) has its `~` expanded, and image mode is set. */
  function ImageStep(c: Configuration, name: string, user: string, line: string): (Configuration, string) {
    var r := ImageScan(line);
    if r.ret != 0 then (c.(imageMode := true), ExpandHome(StoredText(r).GetOr(name), user))
    else (c, name)
  }

  /** The distro statement: version_name after it. */
  function VersionAfter(version: string, line: string): string {
    StoredText(DistroScan(line)).GetOr(version)
  }

  /** The body of parse_config's loop, for one fgets chunk. */
  function ParseLine(p: Parsed, user: string, line: string): Parsed {
    var version := VersionAfter(p.versionName, line);
    var ascii := SwitchStep(p.config, [], line, Ascii);
    var image := ImageStep(ascii.0, p.imageName, user, line);
    var rest := SwitchSteps(image.0, ascii.1, line, ShowSwitches);
    Parsed(rest.0, version, image.1)
  }

  /** The loop over all chunks. */
  function ParseLines(p: Parsed, user: string, lines: seq<string>): Parsed
    decreases |lines|
  {
    if lines == [] then p
    else ParseLine(ParseLines(p, user, lines[..|lines| - 1]), user, lines[|lines| - 1])
  }

  /** parse_config for a configuration file with content `file`, None when it cannot
      be opened; `user`, `versionName` and `imageName` are what struct info holds. */
  function ParsedFile(file: Option<string>, user: string, versionName: string, imageName: string): Parsed {
    var start := Parsed(Defaults, versionName, imageName);
    match file
    case None => start
    case Some(text) => ParseLines(start, user, Fgets(text, LineSize))
  }

  /** A line whose values fit their buffers: a switch word `buffer[128]`, a distro
      name `version_name[64]`, an image path, before and after `~` is expanded,
      `image_name[128]` and `temp[128]`. */
  predicate LineFits(p: Parsed, user: string, line: string) {
    && (forall s :: Answer(line, s).Some? ==> |Answer(line, s).value| < 128)
    && |StoredText(DistroScan(line)).GetOr([])| < 64
    && |StoredText(ImageScan(line)).GetOr([])| < 128
    && |ExpandHome(StoredText(ImageScan(line)).GetOr(p.imageName), user)| < 128
  }

  /** Every chunk of the file fits, given the state the chunks before it leave. */
  predicate LinesFit(p: Parsed, user: string, lines: seq<string>)
    decreases |lines|
  {
    lines == [] ||
    (LinesFit(p, user, lines[..|lines| - 1]) &&
     LineFits(ParseLines(p, user, lines[..|lines| - 1]), user, lines[|lines| - 1]))
  }

  // ------------------------------------------------------------------
  // The effect of one line on a switch

  /** A switch statement leaves a non-empty buffer only on a line that ends in no key. */
  lemma StepBuffer(c: Configuration, buffer: string, line: string, t: Switch)
    requires buffer != [] ==> EndsInNoKey(line)
    ensures SwitchStep(c, buffer, line, t).1 != [] ==> EndsInNoKey(line)
  {
    SwitchScanAnswers(line, t);
    var a := Answer(line, t);
    if a.Some? && a.value != [] {
      WordEndsInNoKey(line, t);
    }
  }

  /** One switch statement decides switch `t` from what the line says to it and
      touches no other switch. */
  lemma StepDecides(c: Configuration, buffer: string, line: string, t: Switch, s: Switch)
    requires buffer != [] ==> EndsInNoKey(line)
    ensures s == t ==> Get(SwitchStep(c, buffer, line, t).0, s) == Effect(Get(c, s), s, Answer(line, s))
    ensures s != t ==> Get(SwitchStep(c, buffer, line, t).0, s) == Get(c, s)
  {
    SwitchScanAnswers(line, t);
    var a := Answer(line, t);
    var r := SwitchScan(line, t);
    SetGet(c, t, Decide(t, StoredText(r).GetOr(buffer)), s);
    assert a == Some([]) ==> line <= Key(t);
  }

  /** The buffer stays empty through a sequence of switch statements unless the line
      ends in no key. */
  lemma {:induction false} StepsBuffer(c: Configuration, buffer: string, line: string, ss: seq<Switch>)
    requires buffer != [] ==> EndsInNoKey(line)
    ensures SwitchSteps(c, buffer, line, ss).1 != [] ==> EndsInNoKey(line)
    decreases |ss|
  {
    if ss != [] {
      var init := ss[..|ss| - 1];
      var p := SwitchSteps(c, buffer, line, init);
      StepsBuffer(c, buffer, line, init);
      StepBuffer(p.0, p.1, line, ss[|ss| - 1]);
    }
  }

  /** Whether a sequence of switch statements has one for `s`. */
  predicate Mentions(ss: seq<Switch>, s: Switch)
    decreases |ss|
  {
    ss != [] && (ss[|ss| - 1] == s || Mentions(ss[..|ss| - 1], s))
  }

  /** A sequence of switch statements decides each switch in it from what the line
      says to it and leaves every other switch alone. */
  lemma {:induction false} StepsDecide(c: Configuration, buffer: string, line: string, ss: seq<Switch>, s: Switch)
    requires buffer != [] ==> EndsInNoKey(line)
    ensures Mentions(ss, s) ==> Get(SwitchSteps(c, buffer, line, ss).0, s) == Effect(Get(c, s), s, Answer(line, s))
    ensures !Mentions(ss, s) ==> Get(SwitchSteps(c, buffer, line, ss).0, s) == Get(c, s)
    decreases |ss|
  {
    if ss != [] {
      var init, last := ss[..|ss| - 1], ss[|ss| - 1];
      var p := SwitchSteps(c, buffer, line, init);
      StepsDecide(c, buffer, line, init, s);
      StepsBuffer(c, buffer, line, init);
      StepDecides(p.0, p.1, line, last, s);
    }
  }

  lemma {:induction false} MentionsIsIn(ss: seq<Switch>, s: Switch)
    ensures Mentions(ss, s) == (s in ss)
    decreases |ss|
  {
    if ss != [] {
      MentionsIsIn(ss[..|ss| - 1], s);
      assert ss == ss[..|ss| - 1] + [ss[|ss| - 1]];
    }
  }

  /** The show switches are every switch but `ascii=`. */
  lemma ShowSwitchesMention(s: Switch)
    ensures Mentions(ShowSwitches, s) == (s != Ascii)
  {
    MentionsIsIn(ShowSwitches, s);
  }

  /** A show switch after one line: what the line says to it decides it, or it keeps
      its value when the line says nothing to it. */
  lemma LineDecidesSwitch(p: Parsed, user: string, line: string, s: Switch)
    requires s != Ascii
    ensures Get(ParseLine(p, user, line).config, s) == Effect(Get(p.config, s), s, Answer(line, s))
  {
    var ascii := SwitchStep(p.config, [], line, Ascii);
    var image := ImageStep(ascii.0, p.imageName, user, line);
    StepDecides(p.config, [], line, Ascii, s);
    StepBuffer(p.config, [], line, Ascii);
    assert Get(image.0, s) == Get(ascii.0, s);
    StepsDecide(image.0, ascii.1, line, ShowSwitches, s);
    ShowSwitchesMention(s);
  }

  /** Whether the image statement fires on a line: the line starts with `image="`
      and a character other than '"', or ends inside or right after `image="`. */
  predicate ImageFires(line: string) {
    if ImageKey <= line then line == ImageKey || line[|ImageKey|] != '"'
    else line <= ImageKey
  }

  lemma ImageFiresIff(line: string)
    ensures (ImageScan(line).ret != 0) == ImageFires(line)
  {
    if ImageKey <= line {
      var rest := line[|ImageKey|..];
      var n := ScansetRun(rest, {'"'}, true, 0);
      if n > 0 {
        var v := [Text(rest[..n])];
        assert Run(rest, [Scanset({'"'}, true, 0), Lit('"')], []) == Run(rest[n..], [Lit('"')], v);
        assert Run(rest[n..], [Lit('"')], v).ret == 1;
      }
    }
  }

  /** The display mode after one line: image mode when the image statement fires,
      otherwise what the line says to `ascii=` decides it. */
  lemma LineDecidesMode(p: Parsed, user: string, line: string)
    ensures ParseLine(p, user, line).config.imageMode
         == (ImageFires(line) || Effect(p.config.imageMode, Ascii, Answer(line, Ascii)))
  {
    var ascii := SwitchStep(p.config, [], line, Ascii);
    var image := ImageStep(ascii.0, p.imageName, user, line);
    StepDecides(p.config, [], line, Ascii, Ascii);
    StepBuffer(p.config, [], line, Ascii);
    ImageFiresIff(line);
    StepsDecide(image.0, ascii.1, line, ShowSwitches, Ascii);
    ShowSwitchesMention(Ascii);
  }

  /** A line `image="<path>"...` with a non-empty path sets image mode and the path,
      a leading `~` replaced by /home/<user>. */
  lemma ImageLine(p: Parsed, user: string, path: string, rest: string)
    requires path != [] && '"' !in path
    ensures var q := ParseLine(p, user, ImageKey + path + "\"" + rest);
      && q.config.imageMode
      && q.imageName == (if path[0] == '~' then "/home/" + user + path[1..] else path)
  {
    var line := ImageKey + path + "\"" + rest;
    ImageScanOf(path, rest);
    assert line[|ImageKey|] == path[0];
    LineDecidesMode(p, user, line);
  }

  /** The image sscanf on `image="<path>"` stores the path. */
  lemma ImageScanOf(path: string, rest: string)
    requires path != [] && '"' !in path
    ensures ImageScan(ImageKey + path + "\"" + rest) == Scanned(1, [Text(path)])
  {
    var line := ImageKey + path + "\"" + rest;
    var t := path + "\"" + rest;
    assert ImageKey <= line && line[|ImageKey|..] == t;
    QuotedTextRun(path, rest);
  }

  /** A line `distro=<name>` followed by white space sets version_name to the name. */
  lemma DistroLine(version: string, name: string, rest: string)
    requires name != [] && NoSpace(name) && rest != [] && IsSpace(rest[0])
    ensures VersionAfter(version, DistroKey + name + rest) == name
  {
    var line := DistroKey + name + rest;
    assert DistroKey <= line && line[|DistroKey|..] == name + rest;
    assert [Word] + [] == [Word];
    WordThen(name, rest, [], []);
  }

  /** A line `<key><word><rest>`, the word made of the letters of "truefalse" and the
      rest not starting with one, says the word to the switch. */
  lemma KeyLine(s: Switch, word: string, rest: string)
    requires word != [] && forall i :: 0 <= i < |word| ==> word[i] in TrueFalse
    requires rest == [] || rest[0] !in TrueFalse
    ensures Answer(Key(s) + word + rest, s) == Some(word)
  {
    var line := Key(s) + word + rest;
    var t := word + rest;
    assert line[|Key(s)|..] == t;
    TrueFalseRun(word, rest);
    assert t[..|word|] == word;
  }

  /** `%[truefalse]` reads the word and stops before the rest. */
  lemma TrueFalseRun(word: string, rest: string)
    requires forall i :: 0 <= i < |word| ==> word[i] in TrueFalse
    requires rest == [] || rest[0] !in TrueFalse
    ensures ScansetRun(word + rest, TrueFalse, false, 0) == |word|
  {
    var t := word + rest;
    assert forall i :: 0 <= i < |word| ==> t[i] == word[i];
    assert |word| < |t| ==> t[|word|] == rest[0];
  }

  // ------------------------------------------------------------------
  // The whole file

  /** The last thing the lines say to a switch, None if they say nothing. */
  function LastAnswer(lines: seq<string>, s: Switch): Option<string>
    decreases |lines|
  {
    if lines == [] then None
    else
      var a := Answer(lines[|lines| - 1], s);
      if a.Some? then a else LastAnswer(lines[..|lines| - 1], s)
  }

  /** A show switch after all lines: the last line that says something to it decides
      it; when none does it keeps its value. */
  lemma {:induction false} LinesDecideSwitch(p: Parsed, user: string, lines: seq<string>, s: Switch)
    requires s != Ascii
    ensures Get(ParseLines(p, user, lines).config, s) == Effect(Get(p.config, s), s, LastAnswer(lines, s))
    decreases |lines|
  {
    if lines != [] {
      var init := lines[..|lines| - 1];
      LinesDecideSwitch(p, user, init, s);
      LineDecidesSwitch(ParseLines(p, user, init), user, lines[|lines| - 1], s);
    }
  }

  /** `user=` shows the user's name only when the last line about it says exactly
      "true" (or no line does). */
  lemma UserShownOnlyByTrue(file: string, user: string, versionName: string, imageName: string)
    ensures var lines := Fgets(file, LineSize);
      ParsedFile(Some(file), user, versionName, imageName).config.showUser
      <==> LastAnswer(lines, User) == None || LastAnswer(lines, User) == Some("true")
  {
    LinesDecideSwitch(Parsed(Defaults, versionName, imageName), user, Fgets(file, LineSize), User);
  }

  /** Every other show switch is hidden only when the last line about it says exactly
      "false". */
  lemma HiddenOnlyByFalse(file: string, user: string, versionName: string, imageName: string, s: Switch)
    requires s != Ascii && s != User
    ensures var lines := Fgets(file, LineSize);
      !Get(ParsedFile(Some(file), user, versionName, imageName).config, s)
      <==> LastAnswer(lines, s) == Some("false")
  {
    DefaultsShowEverything(s);
    LinesDecideSwitch(Parsed(Defaults, versionName, imageName), user, Fgets(file, LineSize), s);
  }

  /** A chunk that is only the start of `user=` at the end of a file without a final
      newline fires the `user=` statement with an empty buffer: the user is hidden. */
  lemma TruncatedUserLineHides(p: Parsed, user: string, line: string)
    requires line <= Key(User)
    ensures !ParseLine(p, user, line).config.showUser
  {
    LineDecidesSwitch(p, user, line, User);
  }

  // ------------------------------------------------------------------
  // parse_config's loop

  /** The switch statements of `ss` on one line, one after the other. */
  method RunSwitches(c: Configuration, b: string, line: string, ss: seq<Switch>)
    returns (config: Configuration, buffer: string)
    ensures (config, buffer) == SwitchSteps(c, b, line, ss)
  {
    config, buffer := c, b;
    for k := 0 to |ss|
      invariant (config, buffer) == SwitchSteps(c, b, line, ss[..k])
    {
      assert ss[..k + 1][..k] == ss[..k];
      var step := SwitchStep(config, buffer, line, ss[k]);
      config, buffer := step.0, step.1;
    }
    assert ss[..|ss|] == ss;
  }

  /** The body of parse_config's loop on one chunk: the distro, ascii and image
      statements, then the show switches. */
  method ParseChunk(c: Configuration, v: string, img: string, user: string, line: string)
    returns (config: Configuration, version: string, image: string)
    ensures Parsed(config, version, image) == ParseLine(Parsed(c, v, img), user, line)
  {
    version := VersionAfter(v, line);
    var ascii := SwitchStep(c, [], line, Ascii);
    var buffer := ascii.1;
    config, image := ascii.0, img;
    var r := ImageScan(line);
    if r.ret != 0 {
      image := ExpandHome(StoredText(r).GetOr(image), user);
      config := config.(imageMode := true);
    }
    config, buffer := RunSwitches(config, buffer, line, ShowSwitches);
  }

  /** parse_config's loop over the chunks fgets returns. */
  method ParseChunks(c: Configuration, v: string, img: string, user: string, chunks: seq<string>)
    returns (config: Configuration, version: string, image: string)
    ensures Parsed(config, version, image) == ParseLines(Parsed(c, v, img), user, chunks)
  {
    config, version, image := c, v, img;
    var i := 0;
    while i < |chunks|
      invariant i <= |chunks|
      invariant Parsed(config, version, image) == ParseLines(Parsed(c, v, img), user, chunks[..i])
    {
      assert chunks[..i + 1][..i] == chunks[..i];
      config, version, image := ParseChunk(config, version, image, user, chunks[i]);
      i := i + 1;
    }
    assert chunks[..i] == chunks;
  }

  /** parse_config: the defaults when the file cannot be opened; otherwise the
      chunks of the file update them and the version and image names in turn. */
  method ParseConfig(file: Option<string>, user: string, versionName: string, imageName: string)
    returns (config: Configuration, version: string, image: string)
    requires file.Some? ==> LinesFit(Parsed(Defaults, versionName, imageName), user, Fgets(file.value, LineSize))
    ensures Parsed(config, version, image) == ParsedFile(file, user, versionName, imageName)
  {
    config, version, image := Defaults, versionName, imageName;
    if file.Some? {
      config, version, image := ParseChunks(config, version, image, user, Fgets(file.value, LineSize));
    }
  }

  // ------------------------------------------------------------------
  // main: UWUFETCH_CACHE_ENABLED

  /** The letters of `%4[TRUEtrue1]`. */
  const CacheLetters: set<char> := {'T', 'R', 'U', 'E', 't', 'r', 'u', 'e', '1'}

  /** Whether the cache is enabled for the value of UWUFETCH_CACHE_ENABLED: the word
      `%4[TRUEtrue1]` reads is "true", "TRUE" or "1". A value that does not start
      with one of those letters leaves the buffer uninitialised. */
  function CacheEnabled(env: string): (enabled: bool)
    requires env != [] && env[0] in CacheLetters
  {
    var r := Sscanf(env, [Scanset(CacheLetters, false, 4)]);
    var buffer := StoredText(r).GetOr([]);
    buffer == "true" || buffer == "TRUE" || buffer == "1"
  }

  /** The cache is enabled exactly by a value that starts with "true" or "TRUE", or
      that is "1" not followed by another of the letters. */
  lemma CacheEnabledIff(env: string)
    requires env != [] && env[0] in CacheLetters
    ensures CacheEnabled(env) <==>
      ("true" <= env || "TRUE" <= env || ("1" <= env && (|env| == 1 || env[1] !in CacheLetters)))
  {
    var n := ScansetRun(env, CacheLetters, false, 4);
    assert Run(env, [Scanset(CacheLetters, false, 4)], []) == Run(env[n..], [], [Text(env[..n])]);
    assert StoredText(Sscanf(env, [Scanset(CacheLetters, false, 4)])) == Some(env[..n]);
  }
}
