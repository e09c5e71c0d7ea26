/** pkgman: every package manager's count is added to the total, and the non-zero
    ones are appended to pkgman_name as `<count> <label>`, separated by ", ". */
module Packages {
  import opened Stdio
  import Cache

  /** The labels of the package-manager table, in the order pkgman asks them. */
  const Labels: seq<string> := [
    "(apt)", "(apk)", "(dnf)", "(emerge)", "(flatpak)", "(snap)", "(guix)",
    "(nix)", "(pacman)", "(pkg)", "(port)", "(rpm)", "(xbps)", "(zypper)"]

  /** The largest value of the C `int` that holds the total. */
  const IntMax: int := 0x7fff_ffff

  /** What one manager with a non-zero count contributes. */
  function Entry(count: nat, manager: string): string {
    NatString(count) + " " + manager
  }

  /** The entries of the managers whose count is not zero, in table order. */
  function Entries(counts: seq<nat>, labels: seq<string>): (entries: seq<string>)
    requires |counts| == |labels|
    ensures |entries| <= |counts|
    ensures forall i :: 0 <= i < |entries| ==> entries[i] != []
    decreases |counts|
  {
    if counts == [] then []
    else
      var n := |counts| - 1;
      var init := Entries(counts[..n], labels[..n]);
      if counts[n] > 0 then init + [Entry(counts[n], labels[n])] else init
  }

  /** The parts with ", " between consecutive ones. */
  function Joined(parts: seq<string>): string
    decreases |parts|
  {
    if parts == [] then ""
    else if |parts| == 1 then parts[0]
    else Joined(parts[..|parts| - 1]) + ", " + parts[|parts| - 1]
  }

  /** What pkgman appends to pkgman_name. */
  function Summary(counts: seq<nat>, labels: seq<string>): string
    requires |counts| == |labels|
  {
    Joined(Entries(counts, labels))
  }

  /** The sum of the counts. */
  function Total(counts: seq<nat>): nat
    decreases |counts|
  {
    if counts == [] then 0 else Total(counts[..|counts| - 1]) + counts[|counts| - 1]
  }

  /** pkgman, `counts[i]` being what the i-th command of the table printed. The
      summary is appended to what pkgman_name held; it must fit the 64-byte member,
      and the total must fit an `int`. */
  method Pkgman(info: Cache.Info, counts: seq<nat>) returns (total: int)
    requires |counts| == |Labels|
    requires Total(counts) <= IntMax
    requires |info.pkgmanName| + |Summary(counts, Labels)| < Cache.NarrowSize
    modifies info
    ensures total == Total(counts)
    ensures info.pkgmanName == old(info.pkgmanName) + Summary(counts, Labels)
    ensures info.Snapshot() == old(info.Snapshot()).(pkgmanName := info.pkgmanName)
  {
    total := CountPackages(info, counts, Labels);
  }

  /** The loop of pkgman over a table of managers. */
  method CountPackages(info: Cache.Info, counts: seq<nat>, labels: seq<string>) returns (total: int)
    requires |counts| == |labels|
    modifies info
    ensures total == Total(counts)
    ensures info.pkgmanName == old(info.pkgmanName) + Summary(counts, labels)
    ensures info.Snapshot() == old(info.Snapshot()).(pkgmanName := info.pkgmanName)
  {
    total := 0;
    var commaSeparator := 0;
    for i := 0 to |labels|
      invariant total == Total(counts[..i])
      invariant commaSeparator == |Entries(counts[..i], labels[..i])|
      invariant info.pkgmanName == old(info.pkgmanName) + Joined(Entries(counts[..i], labels[..i]))
      invariant info.Snapshot() == old(info.Snapshot()).(pkgmanName := info.pkgmanName)
    {
      EntriesStep(counts, labels, i);
      // `fscanf(fp, "%u", &pkg_count) == 3` never holds (CountScanOnce), so no
      // manager is skipped.
      var count := counts[i];
      total := total + count;
      if count > 0 {
        var separator := if commaSeparator != 0 then ", " else "";
        commaSeparator := commaSeparator + 1;
        Associative(old(info.pkgmanName), Joined(Entries(counts[..i], labels[..i])), separator + Entry(count, labels[i]));
        info.pkgmanName := info.pkgmanName + (separator + Entry(count, labels[i]));
      }
    }
    assert counts[..|labels|] == counts && labels[..|labels|] == labels;
  }

  /** One more manager of the table: its entry, if any, follows the others after a
      separator when there are others. */
  lemma EntriesStep(counts: seq<nat>, labels: seq<string>, i: nat)
    requires |counts| == |labels| && i < |counts|
    ensures Total(counts[..i + 1]) == Total(counts[..i]) + counts[i]
    ensures counts[i] == 0 ==> Entries(counts[..i + 1], labels[..i + 1]) == Entries(counts[..i], labels[..i])
    ensures counts[i] > 0 ==>
      var entries := Entries(counts[..i], labels[..i]);
      Entries(counts[..i + 1], labels[..i + 1]) == entries + [Entry(counts[i], labels[i])] &&
      Joined(entries + [Entry(counts[i], labels[i])])
        == Joined(entries) + ((if entries != [] then ", " else "") + Entry(counts[i], labels[i]))
  {
    assert counts[..i + 1][..i] == counts[..i] && labels[..i + 1][..i] == labels[..i];
    var entries := Entries(counts[..i], labels[..i]);
    var e := Entry(counts[i], labels[i]);
    assert (entries + [e])[..|entries|] == entries;
  }

  lemma Associative(a: string, b: string, c: string)
    ensures (a + b) + c == a + (b + c)
  {
  }

  /** fscanf with the one conversion `%u` returns at most 1, so pkgman's test for 3
      never skips a manager. */
  lemma CountScanOnce(output: string)
    ensures Sscanf(output, [Integer(false)]).ret <= 1
  {
  }

  /** The summary is empty exactly when every count is zero. */
  lemma NothingInstalled(counts: seq<nat>, labels: seq<string>)
    requires |counts| == |labels|
    ensures Summary(counts, labels) == [] <==> forall i :: 0 <= i < |counts| ==> counts[i] == 0
  {
    EntriesEmpty(counts, labels);
    JoinedIsEmpty(Entries(counts, labels));
  }

  /** No entry exactly when every count is zero, and then the total is zero too. */
  lemma {:induction false} EntriesEmpty(counts: seq<nat>, labels: seq<string>)
    requires |counts| == |labels|
    ensures Entries(counts, labels) == [] <==> forall i :: 0 <= i < |counts| ==> counts[i] == 0
    ensures Total(counts) == 0 <==> forall i :: 0 <= i < |counts| ==> counts[i] == 0
    decreases |counts|
  {
    if counts != [] {
      var n := |counts| - 1;
      EntriesEmpty(counts[..n], labels[..n]);
      assert forall i :: 0 <= i < n ==> counts[..n][i] == counts[i];
    }
  }

  /** Joined parts are empty only when there are no parts, every entry being non-empty. */
  lemma {:induction false} JoinedIsEmpty(parts: seq<string>)
    requires forall i :: 0 <= i < |parts| ==> parts[i] != []
    ensures Joined(parts) == [] <==> parts == []
    decreases |parts|
  {
    if |parts| > 1 {
      JoinedIsEmpty(parts[..|parts| - 1]);
    }
  }

  /** The summary starts with the first entry and ends with the last: no leading or
      trailing separator. */
  lemma {:induction false} JoinedEnds(parts: seq<string>)
    requires parts != []
    ensures parts[0] <= Joined(parts)
    ensures Joined(parts)[|Joined(parts)| - |parts[|parts| - 1]|..] == parts[|parts| - 1]
    decreases |parts|
  {
    if |parts| > 1 {
      var init := parts[..|parts| - 1];
      JoinedEnds(init);
      assert init[0] == parts[0];
      var j := Joined(init);
      assert Joined(parts) == j + ", " + parts[|parts| - 1];
      assert (j + ", " + parts[|parts| - 1])[..|parts[0]|] == j[..|parts[0]|];
    }
  }

  /** The length of the summary: every entry, and two characters between each pair. */
  lemma {:induction false} JoinedLength(parts: seq<string>)
    requires parts != []
    ensures |Joined(parts)| == Lengths(parts) + 2 * (|parts| - 1)
    decreases |parts|
  {
    if |parts| > 1 {
      JoinedLength(parts[..|parts| - 1]);
    }
  }

  function Lengths(parts: seq<string>): nat
    decreases |parts|
  {
    if parts == [] then 0 else Lengths(parts[..|parts| - 1]) + |parts[|parts| - 1]|
  }

  /** Managers are independent: the entries of two stretches of the table are those
      of each in turn, and a manager with no packages adds nothing. */
  lemma {:induction false} EntriesAppend(c1: seq<nat>, l1: seq<string>, c2: seq<nat>, l2: seq<string>)
    requires |c1| == |l1| && |c2| == |l2|
    ensures Entries(c1 + c2, l1 + l2) == Entries(c1, l1) + Entries(c2, l2)
    ensures Total(c1 + c2) == Total(c1) + Total(c2)
    decreases |c2|
  {
    if c2 == [] {
      assert c1 + c2 == c1 && l1 + l2 == l1;
    } else {
      var n := |c2| - 1;
      var x, y := c2[n], l2[n];
      assert c2 == c2[..n] + [x] && l2 == l2[..n] + [y];
      assert c1 + c2 == (c1 + c2[..n]) + [x] && l1 + l2 == (l1 + l2[..n]) + [y];
      EntriesAppend(c1, l1, c2[..n], l2[..n]);
      EntriesSnoc(c1 + c2[..n], l1 + l2[..n], x, y);
      EntriesSnoc(c2[..n], l2[..n], x, y);
    }
  }

  /** One more manager at the end of the table. */
  lemma EntriesSnoc(counts: seq<nat>, labels: seq<string>, x: nat, y: string)
    requires |counts| == |labels|
    ensures Entries(counts + [x], labels + [y])
         == Entries(counts, labels) + (if x > 0 then [Entry(x, y)] else [])
    ensures Total(counts + [x]) == Total(counts) + x
  {
    assert (counts + [x])[..|counts|] == counts && (labels + [y])[..|labels|] == labels;
  }

  /** When every manager has packages, the entries are all the managers, in order. */
  lemma {:induction false} AllInstalled(counts: seq<nat>, labels: seq<string>)
    requires |counts| == |labels|
    requires forall i :: 0 <= i < |counts| ==> counts[i] > 0
    ensures Entries(counts, labels) == seq(|counts|, i requires 0 <= i < |counts| => Entry(counts[i], labels[i]))
    decreases |counts|
  {
    if counts != [] {
      var n := |counts| - 1;
      AllInstalled(counts[..n], labels[..n]);
    }
  }
}
