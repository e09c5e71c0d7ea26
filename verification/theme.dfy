/** The "uwuification" of what uwufetch prints: whole-word renaming of the kernel
    string, renaming of the distribution name, and case-insensitive rewriting of
    hardware names. */
module Theme {
  import opened Wrappers
  import opened CStrings

  /** The value of the first entry whose key equals `key` exactly (strcmp == 0), as an
      else-if chain of comparisons finds it. */
  function Lookup(table: seq<(string, string)>, key: string): Option<string> {
    LookupFrom(table, 0, key)
  }

  /** The chain from entry `k` on. */
  function LookupFrom(table: seq<(string, string)>, k: nat, key: string): Option<string>
    decreases |table| - k
  {
    if k >= |table| then None
    else if table[k].0 == key then Some(table[k].1)
    else LookupFrom(table, k + 1, key)
  }

  /** A value is found exactly when some entry from `k` on has the key, and it is the
      first such entry's. */
  lemma {:induction false} LookupFromSpec(table: seq<(string, string)>, k: nat, key: string)
    ensures LookupFrom(table, k, key).None? <==>
      forall i :: k <= i < |table| ==> table[i].0 != key
    ensures LookupFrom(table, k, key).Some? ==>
      exists i :: k <= i < |table| && table[i] == (key, LookupFrom(table, k, key).value) &&
        forall j :: k <= j < i ==> table[j].0 != key
    decreases |table| - k
  {
    if k < |table| && table[k].0 != key {
      LookupFromSpec(table, k + 1, key);
    }
  }

  /** A value is found exactly when some entry has the key, and it is the first such
      entry's. */
  lemma LookupSpec(table: seq<(string, string)>, key: string)
    ensures Lookup(table, key).None? <==> forall i :: 0 <= i < |table| ==> table[i].0 != key
    ensures Lookup(table, key).Some? ==>
      exists i :: 0 <= i < |table| && table[i] == (key, Lookup(table, key).value) &&
        forall j :: 0 <= j < i ==> table[j].0 != key
  {
    LookupFromSpec(table, 0, key);
  }

  /** The first entry with a key is the one found. */
  lemma LookupFirst(table: seq<(string, string)>, i: nat)
    requires i < |table| && forall j :: 0 <= j < i ==> table[j].0 != table[i].0
    ensures Lookup(table, table[i].0) == Some(table[i].1)
  {
    LookupSpec(table, table[i].0);
  }

  // ------------------------------------------------------------------
  // uwu_kernel

  /** The renamings of uwu_kernel, in the order its chain tests them. */
  const KernelTable: seq<(string, string)> := [
    ("Linux", "Linuwu"), ("linux", "linuwu"), ("alpine", "Nyalpine"),
    ("amogos", "AmogOwOS"), ("arch", "Nyarch Linuwu"), ("artix", "Nyartix Linuwu"),
    ("debian", "Debinyan"), ("endeavouros", "endeavOwO"), ("EndeavourOS", "endeavOwO"),
    ("fedora", "Fedowa"), ("gentoo", "GentOwO"), ("gnu", "gnUwU"),
    ("guix", "gnUwU gUwUix"), ("linuxmint", "LinUWU Miwint"), ("manjaro", "Myanjawo"),
    ("manjaro-arm", "Myanjawo AWM"), ("neon", "KDE NeOwOn"), ("nixos", "nixOwOs"),
    ("opensuse-leap", "OwOpenSUSE Leap"), ("opensuse-tumbleweed", "OwOpenSUSE Tumbleweed"),
    ("pop", "PopOwOS"), ("raspbian", "RaspNyan"), ("slackware", "Swackwawe"),
    ("solus", "sOwOlus"), ("ubuntu", "Uwuntu"), ("void", "OwOid"),
    ("xerolinux", "xuwulinux"), ("android", "Nyandroid"), ("freebsd", "FweeBSD"),
    ("openbsd", "OwOpenBSD"), ("macos", "macOwOS"), ("ios", "iOwOS"),
    ("windows", "WinyandOwOws")
  ]

  /** Number of token slots of uwu_kernel (`char splitted[16][128]`). */
  const Slots: nat := 16

  /** Size of each slot. */
  const SlotSize: nat := 128

  /** Size of the kernel buffer the result is written back into. */
  const KernelSize: nat := 256

  /** One token after KERNEL_TO_UWU: renamed when it equals a key, else kept. */
  function KernelWord(token: string): string {
    Lookup(KernelTable, token).GetOr(token)
  }

  /** The 16 slots strsep fills: the tokens of the kernel string, then empty slots. */
  function Padded(kernel: string): (slots: seq<string>)
    requires |Split(kernel)| <= Slots
    ensures |slots| == Slots
  {
    Split(kernel) + seq(Slots - |Split(kernel)|, _ => "")
  }

  /** The 16 slots uwu_kernel joins, each renamed. */
  function KernelSlots(kernel: string): (slots: seq<string>)
    requires |Split(kernel)| <= Slots
    ensures |slots| == Slots
  {
    var padded := Padded(kernel);
    seq(Slots, i requires 0 <= i < Slots => KernelWord(padded[i]))
  }

  /** The tokens joined with a space after each, as strcat rebuilds them. */
  lemma {:induction false} JoinSpacesSnoc(tokens: seq<string>, t: string)
    ensures JoinSpaces(tokens + [t]) == if tokens == [] then t else JoinSpaces(tokens) + " " + t
  {
    if |tokens| > 1 {
      assert (tokens + [t])[1..] == tokens[1..] + [t];
      JoinSpacesSnoc(tokens[1..], t);
    } else if |tokens| == 1 {
      assert (tokens + [t])[1..] == [t];
    }
  }

  /** A joined prefix of the slots is a prefix of the joined slots. */
  lemma {:induction false} JoinSpacesPrefix(tokens: seq<string>, i: nat)
    requires i <= |tokens|
    ensures |JoinSpaces(tokens[..i])| <= |JoinSpaces(tokens)|
    decreases |tokens| - i
  {
    if i < |tokens| {
      JoinSpacesPrefix(tokens, i + 1);
      assert tokens[..i + 1] == tokens[..i] + [tokens[i]];
      JoinSpacesSnoc(tokens[..i], tokens[i]);
    } else {
      assert tokens[..i] == tokens;
    }
  }

  /** What one strsep call contributes to the split. */
  lemma SplitStep(s: string)
    ensures var (token, rest) := Strsep(Some(s));
      Split(s)[0] == token.value &&
      (rest.None? ==> |Split(s)| == 1) &&
      (rest.Some? ==> Split(s)[1..] == Split(rest.value))
  {
  }

  /** The strsep call that yields token `count` of the split. */
  lemma SlotStep(unread: string, tokens: seq<string>, count: nat)
    requires count <= |tokens| && Split(unread) == tokens[count..]
    ensures count < |tokens|
    ensures Strsep(Some(unread)).0 == Some(tokens[count])
    ensures Strsep(Some(unread)).1.None? ==> count + 1 == |tokens|
    ensures Strsep(Some(unread)).1.Some? ==> Split(Strsep(Some(unread)).1.value) == tokens[count + 1..]
  {
    SplitStep(unread);
    assert tokens[count + 1..] == tokens[count..][1..];
  }

  /** The first half of uwu_kernel: strsep cuts the kernel string at every space into
      the 16 slots of `splitted`, empty tokens included. */
  method StrsepSlots(kernel: string) returns (splitted: array<string>)
    requires |Split(kernel)| <= Slots
    requires forall i :: 0 <= i < |Split(kernel)| ==> |Split(kernel)[i]| < SlotSize
    ensures fresh(splitted) && splitted[..] == Padded(kernel)
  {
    ghost var tokens := Split(kernel);
    splitted := new string[Slots](_ => "");
    var count := 0;
    ghost var unread := kernel;
    var next := Strsep(Some(kernel));
    while next.0.Some?
      invariant count <= |tokens| <= Slots
      invariant next.0.Some? ==> next == Strsep(Some(unread)) && Split(unread) == tokens[count..]
      invariant next.0.None? ==> count == |tokens|
      invariant forall k :: 0 <= k < Slots ==> splitted[k] == if k < count then tokens[k] else ""
      decreases |tokens| - count
    {
      SlotStep(unread, tokens, count);
      splitted[count] := next.0.value;
      count := count + 1;
      match next.1
      case None =>
        next := Strsep(None);
      case Some(rest) =>
        unread := rest;
        next := Strsep(Some(rest));
    }
    assert splitted[..] == Padded(kernel);
  }

  /** uwu_kernel: the kernel string is cut at every space into the 16 slots, then each
      slot is renamed and the slots are concatenated with a space before each but the
      first. */
  method UwuKernel(kernel: string) returns (result: string)
    requires |Split(kernel)| <= Slots
    requires forall i :: 0 <= i < |Split(kernel)| ==> |Split(kernel)[i]| < SlotSize
    requires |JoinSpaces(KernelSlots(kernel))| < KernelSize
    ensures result == JoinSpaces(KernelSlots(kernel))
  {
    var splitted := StrsepSlots(kernel);
    ghost var padded := Padded(kernel);
    ghost var slots := KernelSlots(kernel);
    result := "";
    for i := 0 to Slots
      invariant result == JoinSpaces(slots[..i]) && |result| < KernelSize
      invariant forall k :: i <= k < Slots ==> splitted[k] == padded[k]
    {
      var word := KernelWord(splitted[i]);
      KernelStep(kernel, i);
      splitted[i] := word;
      if i != 0 {
        result := result + " ";
      }
      result := result + word;
    }
    assert slots[..Slots] == slots;
  }

  /** Slot `i` renamed is the next word of the result, and the result so far still
      fits the buffer. */
  lemma KernelStep(kernel: string, i: nat)
    requires |Split(kernel)| <= Slots && i < Slots
    requires |JoinSpaces(KernelSlots(kernel))| < KernelSize
    ensures var slots := KernelSlots(kernel);
      && slots[i] == KernelWord(Padded(kernel)[i])
      && JoinSpaces(slots[..i + 1])
         == (if i == 0 then slots[i] else JoinSpaces(slots[..i]) + " " + slots[i])
      && |JoinSpaces(slots[..i + 1])| < KernelSize
  {
    var slots := KernelSlots(kernel);
    JoinStep(slots, i);
    JoinSpacesPrefix(slots, i + 1);
  }

  /** strcat of one more slot, after a space unless it is the first. */
  lemma JoinStep(slots: seq<string>, i: nat)
    requires i < |slots|
    ensures JoinSpaces(slots[..i + 1])
         == if i == 0 then slots[i] else JoinSpaces(slots[..i]) + " " + slots[i]
  {
    JoinSpacesSnoc(slots[..i], slots[i]);
    assert slots[..i + 1] == slots[..i] + [slots[i]];
  }

  /** Every token renamed, one mapping per token. */
  function KernelWords(tokens: seq<string>): (words: seq<string>)
    ensures |words| == |tokens|
  {
    seq(|tokens|, i requires 0 <= i < |tokens| => KernelWord(tokens[i]))
  }

  /** `n` spaces. */
  function Spaces(n: nat): (r: string)
    ensures |r| == n && forall i :: 0 <= i < n ==> r[i] == ' '
  {
    seq(n, _ => ' ')
  }

  /** No key is empty, so an empty slot stays empty. */
  lemma EmptyWordStays()
    ensures KernelWord("") == ""
  {
    LookupSpec(KernelTable, "");
    KeysNonEmpty0();
    KeysNonEmpty1();
  }

  lemma KeysNonEmpty0()
    ensures forall i :: 0 <= i < 16 ==> KernelTable[i].0 != ""
  {
  }

  lemma KeysNonEmpty1()
    ensures forall i :: 16 <= i < |KernelTable| ==> KernelTable[i].0 != ""
  {
  }

  /** Empty slots after at least one token each add one space. */
  lemma {:induction false} JoinPadding(words: seq<string>, n: nat)
    requires words != []
    ensures JoinSpaces(words + seq(n, _ => "")) == JoinSpaces(words) + Spaces(n)
  {
    if n > 0 {
      JoinPadding(words, n - 1);
      assert words + seq(n, _ => "") == (words + seq(n - 1, _ => "")) + [""];
      JoinSpacesSnoc(words + seq(n - 1, _ => ""), "");
      assert Spaces(n) == Spaces(n - 1) + " ";
    } else {
      assert words + seq(n, _ => "") == words;
    }
  }

  /** uwu_kernel's result is the renamed tokens joined with single spaces, followed by
      one space for each of the 16 slots strsep left empty. */
  lemma KernelShape(kernel: string)
    requires |Split(kernel)| <= Slots
    ensures JoinSpaces(KernelSlots(kernel))
      == JoinSpaces(KernelWords(Split(kernel))) + Spaces(Slots - |Split(kernel)|)
  {
    var tokens := Split(kernel);
    EmptyWordStays();
    assert KernelSlots(kernel) == KernelWords(tokens) + seq(Slots - |tokens|, _ => "");
    JoinPadding(KernelWords(tokens), Slots - |tokens|);
  }

  /** A kernel string none of whose tokens is a key comes back unchanged, padded with
      the spaces of the empty slots. */
  lemma KernelWithoutKeys(kernel: string)
    requires |Split(kernel)| <= Slots
    requires forall i, j :: 0 <= i < |Split(kernel)| && 0 <= j < |KernelTable| ==>
      Split(kernel)[i] != KernelTable[j].0
    ensures JoinSpaces(KernelSlots(kernel)) == kernel + Spaces(Slots - |Split(kernel)|)
  {
    var tokens := Split(kernel);
    forall i | 0 <= i < |tokens| ensures KernelWord(tokens[i]) == tokens[i] {
      LookupSpec(KernelTable, tokens[i]);
    }
    assert KernelWords(tokens) == tokens;
    KernelShape(kernel);
    JoinSplit(kernel);
  }

  /** A token without spaces is the whole split. */
  lemma SplitWord(a: string)
    requires ' ' !in a
    ensures Split(a) == [a]
  {
    assert IndexOf(a, ' ') == |a|;
  }

  /** A token without spaces followed by a space starts the split. */
  lemma SplitCons(a: string, rest: string)
    requires ' ' !in a
    ensures Split(a + " " + rest) == [a] + Split(rest)
  {
    StrsepCons(a, rest);
  }

  /** strsep on a token without spaces followed by a space. */
  lemma StrsepCons(a: string, rest: string)
    requires ' ' !in a
    ensures Strsep(Some(a + " " + rest)) == (Some(a), Some(rest))
  {
    var s := a + " " + rest;
    assert s[|a|] == ' ';
    assert forall i :: 0 <= i < |a| ==> s[i] == a[i];
    assert IndexOf(s, ' ') == |a|;
    assert s[..|a|] == a && s[|a| + 1..] == rest;
  }

  /** The kernel string uwufetch builds from uname, "sysname release machine", splits
      into its three words. */
  lemma UnameSplit(sysname: string, release: string, machine: string)
    requires ' ' !in sysname && ' ' !in release && ' ' !in machine
    ensures Split(sysname + " " + release + " " + machine) == [sysname, release, machine]
  {
    SplitWord(machine);
    SplitCons(release, machine);
    assert sysname + " " + release + " " + machine == sysname + " " + (release + " " + machine);
    SplitCons(sysname, release + " " + machine);
  }

  /** uwu_kernel on that string renames its three words one by one and appends the 13
      spaces of the empty slots. */
  lemma UnameKernel(sysname: string, release: string, machine: string)
    requires ' ' !in sysname && ' ' !in release && ' ' !in machine
    ensures Split(sysname + " " + release + " " + machine) == [sysname, release, machine]
    ensures JoinSpaces(KernelSlots(sysname + " " + release + " " + machine)) ==
      KernelWord(sysname) + " " + KernelWord(release) + " " + KernelWord(machine) + Spaces(13)
  {
    var kernel := sysname + " " + release + " " + machine;
    UnameSplit(sysname, release, machine);
    KernelShape(kernel);
    WordsOfThree(sysname, release, machine);
    JoinThree(KernelWord(sysname), KernelWord(release), KernelWord(machine));
  }

  lemma WordsOfThree(a: string, b: string, c: string)
    ensures KernelWords([a, b, c]) == [KernelWord(a), KernelWord(b), KernelWord(c)]
  {
  }

  lemma JoinThree(a: string, b: string, c: string)
    ensures JoinSpaces([a, b, c]) == a + " " + b + " " + c
  {
    assert [a, b, c][1..] == [b, c];
    assert [b, c][1..] == [c];
    assert JoinSpaces([b, c]) == b + " " + c;
    assert a + " " + (b + " " + c) == a + " " + b + " " + c;
  }

  /** The keys of the kernel table are pairwise different. */
  lemma KernelKeysDistinct()
    ensures forall i, j :: 0 <= i < j < |KernelTable| ==> KernelTable[i].0 != KernelTable[j].0
  {
    KeysDistinct0();
    KeysDistinct1();
    KeysDistinct2();
    KeysDistinct3();
  }

  lemma KeysDistinct0()
    ensures forall i, j :: 0 <= i < j && 0 <= j < 14 ==> KernelTable[i].0 != KernelTable[j].0
  {
  }

  lemma KeysDistinct1()
    ensures forall i, j :: 0 <= i < j && 14 <= j < 22 ==> KernelTable[i].0 != KernelTable[j].0
  {
  }

  lemma KeysDistinct2()
    ensures forall i, j :: 0 <= i < j && 22 <= j < 28 ==> KernelTable[i].0 != KernelTable[j].0
  {
  }

  lemma KeysDistinct3()
    ensures forall i, j :: 0 <= i < j && 28 <= j < 33 ==> KernelTable[i].0 != KernelTable[j].0
  {
  }

  /** A token equal to a key becomes that key's value. */
  lemma KernelWordRenames(i: nat)
    requires i < |KernelTable|
    ensures KernelWord(KernelTable[i].0) == KernelTable[i].1
  {
    KernelKeysDistinct();
    LookupFirst(KernelTable, i);
  }

  // ------------------------------------------------------------------
  // uwu_name

  /** The renamings of uwu_name, in the order its chain tests them. */
  const NameTable: seq<(string, string)> := [
    ("alpine", "Nyalpine"), ("amogos", "AmogOwOS"), ("arch", "Nyarch Linuwu"),
    ("arcolinux", "ArcOwO Linuwu"), ("artix", "Nyartix Linuwu"), ("debian", "Debinyan"),
    ("endeavouros", "endeavOwO"), ("EndeavourOS", "endeavOwO"), ("fedora", "Fedowa"),
    ("gentoo", "GentOwO"), ("gnu", "gnUwU"), ("guix", "gnUwU gUwUix"),
    ("linuxmint", "LinUWU Miwint"), ("manjaro", "Myanjawo"), ("manjaro-arm", "Myanjawo AWM"),
    ("neon", "KDE NeOwOn"), ("nixos", "nixOwOs"), ("opensuse-leap", "OwOpenSUSE Leap"),
    ("opensuse-tumbleweed", "OwOpenSUSE Tumbleweed"), ("pop", "PopOwOS"),
    ("raspbian", "RaspNyan"), ("slackware", "Swackwawe"), ("solus", "sOwOlus"),
    ("ubuntu", "Uwuntu"), ("void", "OwOid"), ("xerolinux", "xuwulinux"),
    ("android", "Nyandroid"), ("freebsd", "FweeBSD"), ("openbsd", "OwOpenBSD"),
    ("macos", "macOwOS"), ("ios", "iOwOS"), ("windows", "WinyandOwOws")
  ]

  /** What uwu_name writes when no key matches. */
  const Unknown: string := "unknown"

  /** uwu_name: the version name becomes its table value, or "unknown". */
  function UwuName(versionName: string): string {
    Lookup(NameTable, versionName).GetOr(Unknown)
  }

  /** A version name equal to a key becomes that key's value. */
  lemma UwuNameRenames(i: nat)
    requires i < |NameTable|
    ensures UwuName(NameTable[i].0) == NameTable[i].1
  {
    NameKeysDistinct();
    LookupFirst(NameTable, i);
  }

  /** Any other version name becomes "unknown". */
  lemma UwuNameFallsBack(versionName: string)
    requires forall i :: 0 <= i < |NameTable| ==> NameTable[i].0 != versionName
    ensures UwuName(versionName) == Unknown
  {
    LookupSpec(NameTable, versionName);
  }

  /** The result is never empty and fits the 64-byte version_name buffer. */
  lemma UwuNameFits(versionName: string)
    ensures 0 < |UwuName(versionName)| < 64
  {
    LookupSpec(NameTable, versionName);
    NameValuesFit();
  }

  lemma NameValuesFit()
    ensures forall i :: 0 <= i < |NameTable| ==> 0 < |NameTable[i].1| < 64
  {
  }

  lemma UnknownIsNotKey()
    ensures forall i :: 0 <= i < |NameTable| ==> NameTable[i].0 != Unknown
  {
  }

  /** A name that was already themed, and "unknown" itself, are not keys: applying
      uwu_name a second time always yields "unknown". */
  lemma UwuNameTwice(versionName: string)
    ensures UwuName(UwuName(versionName)) == Unknown
  {
    LookupSpec(NameTable, versionName);
    ThemedNamesAreNotKeys();
    UnknownIsNotKey();
    UwuNameFallsBack(UwuName(versionName));
  }

  /** The keys of the name table are pairwise different. */
  lemma NameKeysDistinct()
    ensures forall i, j :: 0 <= i < j < |NameTable| ==> NameTable[i].0 != NameTable[j].0
  {
    NameKeysDistinct0();
    NameKeysDistinct1();
    NameKeysDistinct2();
    NameKeysDistinct3();
  }

  lemma NameKeysDistinct0()
    ensures forall i, j :: 0 <= i < j && 0 <= j < 14 ==> NameTable[i].0 != NameTable[j].0
  {
  }

  lemma NameKeysDistinct1()
    ensures forall i, j :: 0 <= i < j && 14 <= j < 22 ==> NameTable[i].0 != NameTable[j].0
  {
  }

  lemma NameKeysDistinct2()
    ensures forall i, j :: 0 <= i < j && 22 <= j < 28 ==> NameTable[i].0 != NameTable[j].0
  {
  }

  lemma NameKeysDistinct3()
    ensures forall i, j :: 0 <= i < j && 28 <= j < 32 ==> NameTable[i].0 != NameTable[j].0
  {
  }

  /** The characters of the name table's keys: letters and '-'. */
  predicate KeyChar(c: char) {
    'a' <= c <= 'z' || 'A' <= c <= 'Z' || c == '-'
  }

  /** Every key of the name table is made of letters and '-' only, so none holds
      white space or a quote. */
  lemma NameKeysLetters()
    ensures forall i, k :: 0 <= i < |NameTable| && 0 <= k < |NameTable[i].0| ==> KeyChar(NameTable[i].0[k])
  {
    NameKeysLetters0();
    NameKeysLetters1();
    NameKeysLetters2();
    NameKeysLetters3();
  }

  lemma NameKeysLetters0()
    ensures forall i, k :: 0 <= i < 8 && 0 <= k < |NameTable[i].0| ==> KeyChar(NameTable[i].0[k])
  {
  }

  lemma NameKeysLetters1()
    ensures forall i, k :: 8 <= i < 16 && 0 <= k < |NameTable[i].0| ==> KeyChar(NameTable[i].0[k])
  {
  }

  lemma NameKeysLetters2()
    ensures forall i, k :: 16 <= i < 24 && 0 <= k < |NameTable[i].0| ==> KeyChar(NameTable[i].0[k])
  {
  }

  lemma NameKeysLetters3()
    ensures forall i, k :: 24 <= i < |NameTable| && 0 <= k < |NameTable[i].0| ==> KeyChar(NameTable[i].0[k])
  {
  }

  /** A name with a character no key has, a quote say, becomes "unknown". */
  lemma UwuNameForeignChar(name: string, k: nat)
    requires k < |name| && !KeyChar(name[k])
    ensures UwuName(name) == Unknown
  {
    NameKeysLetters();
    forall j | 0 <= j < |NameTable|
      ensures NameTable[j].0 != name
    {
      if k < |NameTable[j].0| {
        assert KeyChar(NameTable[j].0[k]);
      }
    }
    UwuNameFallsBack(name);
  }

  /** No key of the name table is empty. */
  lemma NameKeysNonEmpty(i: nat)
    requires i < |NameTable|
    ensures NameTable[i].0 != ""
  {
  }

  /** No value of the name table is one of its keys. */
  lemma ThemedNamesAreNotKeys()
    ensures forall i, j :: 0 <= i < |NameTable| && 0 <= j < |NameTable| ==>
      NameTable[i].1 != NameTable[j].0
  {
    ThemedNamesAreNotKeys0();
    ThemedNamesAreNotKeys1();
    ThemedNamesAreNotKeys2();
    ThemedNamesAreNotKeys3();
  }

  lemma ThemedNamesAreNotKeys0()
    ensures forall i, j :: 0 <= i < 8 && 0 <= j < |NameTable| ==> NameTable[i].1 != NameTable[j].0
  {
  }

  lemma ThemedNamesAreNotKeys1()
    ensures forall i, j :: 8 <= i < 16 && 0 <= j < |NameTable| ==> NameTable[i].1 != NameTable[j].0
  {
  }

  lemma ThemedNamesAreNotKeys2()
    ensures forall i, j :: 16 <= i < 24 && 0 <= j < |NameTable| ==> NameTable[i].1 != NameTable[j].0
  {
  }

  lemma ThemedNamesAreNotKeys3()
    ensures forall i, j :: 24 <= i < 32 && 0 <= j < |NameTable| ==> NameTable[i].1 != NameTable[j].0
  {
  }

  // ------------------------------------------------------------------
  // uwu_hw

  /** The rewrites of uwu_hw, in the order it applies them; "\U{8}" is the backspace
      the source writes as "\b". */
  const HwTable: seq<(string, string)> := [
    ("lenovo", "LenOwO"), ("cpu", "CC\U{8}PUwU"), ("gpu", "GG\U{8}PUwU"),
    ("graphics", "Gwaphics"), ("corporation", "COwOpowation"), ("nvidia", "NyaVIDIA"),
    ("mobile", "Mwobile"), ("intel", "Inteww"), ("radeon", "Radenyan"),
    ("geforce", "GeFOwOce"), ("raspberry", "Nyasberry"), ("broadcom", "Bwoadcom"),
    ("motorola", "MotOwOwa"), ("proliant", "ProLinyant"), ("poweredge", "POwOwEdge"),
    ("apple", "Nyaa\U{8}pple"), ("electronic", "ElectrOwOnic")
  ]

  /** Size of the buffers uwu_hw is applied to (cpu_model, host_model, gpu_model[i]). */
  const HwBufferSize: nat := 256

  /** The hardware name after the first `k` rewrites of uwu_hw, each replacing every
      case-insensitive occurrence of its term. */
  function HwStage(hwname: string, k: nat): string
    requires k <= |HwTable|
  {
    if k == 0 then hwname
    else
      var (term, replacer) := HwTable[k - 1];
      HwTermsNotEmpty();
      ReplaceAll(HwStage(hwname, k - 1), term, replacer, true)
  }

  lemma HwTermsNotEmpty()
    ensures forall k :: 0 <= k < |HwTable| ==> |HwTable[k].0| > 0
  {
  }

  /** Each term and its replacer cannot overlap, so each replace of uwu_hw ends. */
  lemma HwIsolated(k: nat)
    requires k < |HwTable|
    ensures Isolated(HwTable[k].0, HwTable[k].1, true)
  {
    if k < 9 {
      HwIsolatedFirst(k);
    } else {
      HwIsolatedLast(k);
    }
  }

  lemma HwIsolatedFirst(k: nat)
    requires k < 9
    ensures Isolated(HwTable[k].0, HwTable[k].1, true)
  {
    if k == 0 {
      IsolatedLenovo();
    } else if k == 1 {
      IsolatedCpu();
    } else if k == 2 {
      IsolatedGpu();
    } else if k == 3 {
      IsolatedGraphics();
    } else if k == 4 {
      IsolatedCorporation();
    } else if k == 5 {
      IsolatedNvidia();
    } else if k == 6 {
      IsolatedMobile();
    } else if k == 7 {
      IsolatedIntel();
    } else {
      IsolatedRadeon();
    }
  }

  lemma HwIsolatedLast(k: nat)
    requires 9 <= k < |HwTable|
    ensures Isolated(HwTable[k].0, HwTable[k].1, true)
  {
    if k == 9 {
      IsolatedGeforce();
    } else if k == 10 {
      IsolatedRaspberry();
    } else if k == 11 {
      IsolatedBroadcom();
    } else if k == 12 {
      IsolatedMotorola();
    } else if k == 13 {
      IsolatedProliant();
    } else if k == 14 {
      IsolatedPoweredge();
    } else if k == 15 {
      IsolatedApple();
    } else {
      IsolatedElectronic();
    }
  }

  lemma IsolatedLenovo()
    ensures Isolated("lenovo", "LenOwO", true)
  {
  }

  lemma IsolatedCpu()
    ensures Isolated("cpu", "CC\U{8}PUwU", true)
  {
  }

  lemma IsolatedGpu()
    ensures Isolated("gpu", "GG\U{8}PUwU", true)
  {
  }

  lemma IsolatedGraphics()
    ensures Isolated("graphics", "Gwaphics", true)
  {
  }

  lemma IsolatedCorporation()
    ensures Isolated("corporation", "COwOpowation", true)
  {
  }

  lemma IsolatedNvidia()
    ensures Isolated("nvidia", "NyaVIDIA", true)
  {
  }

  lemma IsolatedMobile()
    ensures Isolated("mobile", "Mwobile", true)
  {
  }

  lemma IsolatedIntel()
    ensures Isolated("intel", "Inteww", true)
  {
  }

  lemma IsolatedRadeon()
    ensures Isolated("radeon", "Radenyan", true)
  {
  }

  lemma IsolatedGeforce()
    ensures Isolated("geforce", "GeFOwOce", true)
  {
  }

  lemma IsolatedRaspberry()
    ensures Isolated("raspberry", "Nyasberry", true)
  {
  }

  lemma IsolatedBroadcom()
    ensures Isolated("broadcom", "Bwoadcom", true)
  {
  }

  lemma IsolatedMotorola()
    ensures Isolated("motorola", "MotOwOwa", true)
  {
  }

  lemma IsolatedProliant()
    ensures Isolated("proliant", "ProLinyant", true)
  {
  }

  lemma IsolatedPoweredge()
    ensures Isolated("poweredge", "POwOwEdge", true)
  {
  }

  lemma IsolatedApple()
    ensures Isolated("apple", "Nyaa\U{8}pple", true)
  {
  }

  lemma IsolatedElectronic()
    ensures Isolated("electronic", "ElectrOwOnic", true)
  {
  }

  /** The stages follow one another. */
  lemma HwStageNext(hwname: string, k: nat)
    requires k < |HwTable|
    ensures HwStage(hwname, k + 1) == ReplaceAll(HwStage(hwname, k), HwTable[k].0, HwTable[k].1, true)
  {
  }

  /** HW_TO_UWU: one case-insensitive replace of uwu_hw, the `k`-th of its table, on a
      name in a 256-byte buffer. */
  method HwToUwu(hwname: string, k: nat) returns (result: string)
    requires k < |HwTable|
    requires |hwname| < HwBufferSize
    requires |ReplaceAll(hwname, HwTable[k].0, HwTable[k].1, true)| < HwBufferSize
    ensures result == ReplaceAll(hwname, HwTable[k].0, HwTable[k].1, true)
    ensures Find(result, HwTable[k].0, true).None?
  {
    HwIsolated(k);
    result := ReplaceEvery(hwname, HwTable[k].0, HwTable[k].1, true);
  }

  /** uwu_hw: the seventeen replaces, in order; every intermediate name has to fit the
      buffer. */
  method UwuHw(hwname: string) returns (result: string)
    requires forall k :: 0 <= k <= |HwTable| ==> |HwStage(hwname, k)| < HwBufferSize
    ensures result == HwStage(hwname, |HwTable|)
  {
    result := hwname;
    HwStageNext(hwname, 0);
    result := HwToUwu(result, 0);
    HwStageNext(hwname, 1);
    result := HwToUwu(result, 1);
    HwStageNext(hwname, 2);
    result := HwToUwu(result, 2);
    HwStageNext(hwname, 3);
    result := HwToUwu(result, 3);
    HwStageNext(hwname, 4);
    result := HwToUwu(result, 4);
    HwStageNext(hwname, 5);
    result := HwToUwu(result, 5);
    HwStageNext(hwname, 6);
    result := HwToUwu(result, 6);
    HwStageNext(hwname, 7);
    result := HwToUwu(result, 7);
    HwStageNext(hwname, 8);
    result := HwToUwu(result, 8);
    HwStageNext(hwname, 9);
    result := HwToUwu(result, 9);
    HwStageNext(hwname, 10);
    result := HwToUwu(result, 10);
    HwStageNext(hwname, 11);
    result := HwToUwu(result, 11);
    HwStageNext(hwname, 12);
    result := HwToUwu(result, 12);
    HwStageNext(hwname, 13);
    result := HwToUwu(result, 13);
    HwStageNext(hwname, 14);
    result := HwToUwu(result, 14);
    HwStageNext(hwname, 15);
    result := HwToUwu(result, 15);
    HwStageNext(hwname, 16);
    result := HwToUwu(result, 16);
  }

  /** Right after its own replace, a term no longer occurs, in any case. */
  lemma HwStageRemovesTerm(hwname: string, k: nat)
    requires k < |HwTable|
    ensures Find(HwStage(hwname, k + 1), HwTable[k].0, true).None?
  {
    HwIsolated(k);
    HwStageNext(hwname, k);
    ReplaceAllLeavesNoMatch(HwStage(hwname, k), HwTable[k].0, HwTable[k].1, true);
  }

  /** A name in which no term occurs, in any case, comes through every stage unchanged. */
  lemma {:induction false} HwStagesKeep(hwname: string, k: nat)
    requires k <= |HwTable|
    requires forall j :: 0 <= j < |HwTable| ==> Find(hwname, HwTable[j].0, true).None?
    ensures HwStage(hwname, k) == hwname
  {
    if k > 0 {
      HwStagesKeep(hwname, k - 1);
      HwStageNext(hwname, k - 1);
      HwTermsNotEmpty();
      ReplaceAllNoMatch(hwname, HwTable[k - 1].0, HwTable[k - 1].1, true);
    }
  }

  /** uwu_hw leaves a name without any of its terms as it is. */
  lemma UwuHwKeepsPlainNames(hwname: string)
    requires forall j :: 0 <= j < |HwTable| ==> Find(hwname, HwTable[j].0, true).None?
    ensures HwStage(hwname, |HwTable|) == hwname
  {
    HwStagesKeep(hwname, |HwTable|);
  }

  /** Without their backspace the "cpu", "gpu" and "apple" replacers would contain their
      own term, case-insensitively, and the replace loop would never end. */
  lemma BackspaceNeeded()
    ensures MatchAt("CCPUwU", 1, "cpu", true)
    ensures MatchAt("GGPUwU", 1, "gpu", true)
    ensures MatchAt("Nyaapple", 3, "apple", true)
  {
    assert "CCPUwU"[1..] == "CPUwU";
    assert "GGPUwU"[1..] == "GPUwU";
    assert "Nyaapple"[3..] == "apple";
  }
}
