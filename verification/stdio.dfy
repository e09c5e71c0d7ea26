/**
 * The parts of the C standard library every parser of the program goes
 * through: how `fgets(line, size, fp)` cuts a stream into chunks, how
 * `sscanf` matches one chunk against a format (return value included:
 * -1 for EOF, otherwise the number of conversions stored), and how `%d`
 * and `%u` print an integer.  The `sscanf` model follows the text of the C
 * standard (7.21.6.2): white space in a format matches any run of white
 * space, an ordinary character must match exactly, a conversion that reads
 * nothing is a matching failure unless the input has ended, which is an
 * input failure, and EOF is returned only for an input failure before the
 * first conversion.
 */
module Stdio {
  import opened Wrappers
  import opened CStrings

  /** The size of every `char line[256]` buffer the program hands to fgets. */
  const LineSize: nat := 256

  // ------------------------------------------------------------------
  // fgets

  /** How many characters one fgets call takes from a non-empty rest of stream:
      up to and including the first newline, but at most size - 1. */
  function ChunkLength(rest: string, size: nat): (k: nat)
    requires rest != [] && size >= 2
    ensures 0 < k <= |rest| && k < size
  {
    var line := if IndexOf(rest, '\n') < |rest| then IndexOf(rest, '\n') + 1 else |rest|;
    if line < size - 1 then line else size - 1
  }

  /** The chunks that successive fgets calls return for a stream whose whole
      content is `content`, until fgets returns NULL. */
  function Fgets(content: string, size: nat): (chunks: seq<string>)
    requires size >= 2
    ensures forall i :: 0 <= i < |chunks| ==> 0 < |chunks[i]| < size
    decreases |content|
  {
    if content == [] then []
    else
      var k := ChunkLength(content, size);
      [content[..k]] + Fgets(content[k..], size)
  }

  /** The chunks laid end to end. */
  function Concat(chunks: seq<string>): string {
    if chunks == [] then [] else chunks[0] + Concat(chunks[1..])
  }

  /** fgets loses nothing: the chunks laid end to end are the stream. */
  lemma {:induction false} FgetsCoversStream(content: string, size: nat)
    requires size >= 2
    ensures Concat(Fgets(content, size)) == content
    decreases |content|
  {
    if content != [] {
      var k := ChunkLength(content, size);
      FgetsCoversStream(content[k..], size);
      assert content == content[..k] + content[k..];
    }
  }

  /** The text of a file whose lines are `ls`, each ended by a newline. */
  function Lines(ls: seq<string>): string {
    if ls == [] then [] else ls[0] + "\n" + Lines(ls[1..])
  }

  /** A line that fits a fgets buffer of `size` together with its newline. */
  predicate ShortLine(l: string, size: nat) {
    '\n' !in l && |l| + 1 < size
  }

  /** Reading back a file of short lines gives one chunk per line, newline included. */
  lemma {:induction false} FgetsOfShortLines(ls: seq<string>, size: nat)
    requires size >= 2
    requires forall i :: 0 <= i < |ls| ==> ShortLine(ls[i], size)
    ensures |Fgets(Lines(ls), size)| == |ls|
    ensures forall i :: 0 <= i < |ls| ==> Fgets(Lines(ls), size)[i] == ls[i] + "\n"
  {
    if ls != [] {
      var head, tail := ls[0], Lines(ls[1..]);
      var c := Lines(ls);
      assert c == head + "\n" + tail;
      FirstChunk(head, tail, size);
      FgetsOfShortLines(ls[1..], size);
      assert Fgets(c, size) == [head + "\n"] + Fgets(tail, size);
    }
  }

  /** fgets takes a short first line whole, with its newline. */
  lemma FirstChunk(head: string, tail: string, size: nat)
    requires size >= 2 && ShortLine(head, size)
    ensures var c := head + "\n" + tail;
      && ChunkLength(c, size) == |head| + 1
      && c[..|head| + 1] == head + "\n"
      && c[|head| + 1..] == tail
  {
    var c := head + "\n" + tail;
    assert c[|head|] == '\n';
    assert forall i :: 0 <= i < |head| ==> c[i] == head[i];
    assert IndexOf(c, '\n') == |head|;
  }

  // ------------------------------------------------------------------
  // sscanf

  /** isspace in the C locale. */
  predicate IsSpace(c: char) {
    c == ' ' || c == '\t' || c == '\n' || c == '\U{B}' || c == '\U{C}' || c == '\r'
  }

  /** One directive of a scanf format. */
  datatype Directive =
    | Lit(c: char)                                         // an ordinary character
    | Space                                                // a white-space character
    | Scanset(chars: set<char>, negated: bool, width: nat) // %[...] or %[^...], width 0: none
    | Word                                                 // %s
    | Integer(autoBase: bool)                              // %d and %u (false), %i (true)

  /** What a conversion stored. */
  datatype Value = Text(s: string) | Number(n: int)

  /** The return value of sscanf (-1 is EOF) and the values it stored, in order. */
  datatype Scanned = Scanned(ret: int, values: seq<Value>)

  /** How many conversions a format has: the most sscanf can return. */
  function Conversions(format: seq<Directive>): nat {
    if format == [] then 0
    else (if format[0].Lit? || format[0].Space? then 0 else 1) + Conversions(format[1..])
  }

  /** The directives of the literal text of a format. */
  function Literal(text: string): (f: seq<Directive>)
    ensures |f| == |text| && Conversions(f) == 0
  {
    if text == [] then []
    else [if IsSpace(text[0]) then Space else Lit(text[0])] + Literal(text[1..])
  }

  /** The input left after a white-space directive. */
  function SkipSpace(s: string): (t: string)
    ensures |t| <= |s| && t == s[|s| - |t|..]
    ensures t != [] ==> !IsSpace(t[0])
  {
    if s != [] && IsSpace(s[0]) then SkipSpace(s[1..]) else s
  }

  predicate InScanset(c: char, chars: set<char>, negated: bool) {
    (c in chars) != negated
  }

  /** Length of the longest prefix of `s` in the scanset, at most `width` long (0: no limit). */
  function ScansetRun(s: string, chars: set<char>, negated: bool, width: nat): (n: nat)
    ensures n <= |s| && (width > 0 ==> n <= width)
    ensures forall i :: 0 <= i < n ==> InScanset(s[i], chars, negated)
    ensures n < |s| && (width == 0 || n < width) ==> !InScanset(s[n], chars, negated)
  {
    if s == [] || !InScanset(s[0], chars, negated) then 0
    else if width == 1 then 1
    else 1 + ScansetRun(s[1..], chars, negated, if width == 0 then 0 else width - 1)
  }

  /** Length of the run of non-white-space characters a %s reads. */
  function WordRun(s: string): (n: nat)
    ensures n <= |s|
    ensures forall i :: 0 <= i < n ==> !IsSpace(s[i])
    ensures n < |s| ==> IsSpace(s[n])
  {
    if s == [] || IsSpace(s[0]) then 0 else 1 + WordRun(s[1..])
  }

  /** The value of a digit character in bases up to 16; 16 for anything else. */
  function DigitValue(c: char): nat {
    if '0' <= c <= '9' then c as nat - '0' as nat
    else if 'a' <= c <= 'f' then c as nat - 'a' as nat + 10
    else if 'A' <= c <= 'F' then c as nat - 'A' as nat + 10
    else 16
  }

  /** Length of the run of base-`base` digits that starts `s`. */
  function DigitRun(s: string, base: nat): (n: nat)
    ensures n <= |s|
    ensures forall i :: 0 <= i < n ==> DigitValue(s[i]) < base
    ensures n < |s| ==> DigitValue(s[n]) >= base
  {
    if s == [] || DigitValue(s[0]) >= base then 0 else 1 + DigitRun(s[1..], base)
  }

  /** The number a run of digits denotes. */
  function DigitsValue(s: string, base: nat): nat {
    if s == [] then 0
    else DigitsValue(s[..|s| - 1], base) * base + (if DigitValue(s[|s| - 1]) < base then DigitValue(s[|s| - 1]) else 0)
  }

  /** The unsigned part of a %d (decimal) or %i (base from the prefix: 0x hexadecimal,
      0 octal) item: its value and the characters it took, or None when no digit
      comes (a lone "0x" included). */
  function Magnitude(u: string, autoBase: bool): (r: Option<(nat, nat)>)
    ensures r.Some? ==> 0 < r.value.1 <= |u|
  {
    if autoBase && u != [] && u[0] == '0' then
      if |u| >= 2 && (u[1] == 'x' || u[1] == 'X') then
        var n := DigitRun(u[2..], 16);
        if n == 0 then None else Some((DigitsValue(u[2..2 + n], 16), 2 + n))
      else
        var n := DigitRun(u, 8);
        Some((DigitsValue(u[..n], 8), n))
    else
      var n := DigitRun(u, 10);
      if n == 0 then None else Some((DigitsValue(u[..n], 10), n))
  }

  /** One %d or %i item read from input that does not start with white space: an
      optional sign, then the magnitude; the number and the characters it took, or
      None for a matching failure. */
  function ScanInteger(t: string, autoBase: bool): (r: Option<(int, nat)>)
    ensures r.Some? ==> 0 < r.value.1 <= |t|
  {
    var signLen: nat := if t != [] && (t[0] == '-' || t[0] == '+') then 1 else 0;
    match Magnitude(t[signLen..], autoBase)
    case None => None
    case Some(m) =>
      var n: int := if signLen == 1 && t[0] == '-' then -(m.0 as int) else m.0;
      Some((n, signLen + m.1))
  }

  /** A failed directive: EOF when the input ran out before the first conversion. */
  function Fail(inputEnded: bool, values: seq<Value>): Scanned {
    Scanned(if inputEnded && values == [] then -1 else |values|, values)
  }

  /** Executes the directives of `format` on `s`, the values stored so far being `values`. */
  function Run(s: string, format: seq<Directive>, values: seq<Value>): Scanned
    decreases format
  {
    if format == [] then Scanned(|values|, values)
    else
      var rest := format[1..];
      match format[0]
      case Lit(c) =>
        if s == [] then Fail(true, values)
        else if s[0] != c then Fail(false, values)
        else Run(s[1..], rest, values)
      case Space => Run(SkipSpace(s), rest, values)
      case Scanset(chars, negated, width) =>
        var n := ScansetRun(s, chars, negated, width);
        if n == 0 then Fail(s == [], values)
        else Run(s[n..], rest, values + [Text(s[..n])])
      case Word =>
        var t := SkipSpace(s);
        if t == [] then Fail(true, values)
        else
          var n := WordRun(t);
          Run(t[n..], rest, values + [Text(t[..n])])
      case Integer(autoBase) =>
        var t := SkipSpace(s);
        if t == [] then Fail(true, values)
        else
          match ScanInteger(t, autoBase)
          case None => Fail(false, values)
          case Some(m) => Run(t[m.1..], rest, values + [Number(m.0)])
  }

  /** sscanf(input, format, ...). */
  function Sscanf(input: string, format: seq<Directive>): (r: Scanned)
    ensures -1 <= r.ret <= Conversions(format)
    ensures r.ret == -1 ==> r.values == []
    ensures r.ret != -1 ==> r.ret == |r.values|
  {
    RunStoresInOrder(input, format, []);
    Run(input, format, [])
  }

  /** Each directive either fails, ending the run, or stores at most one value
      after those already stored; EOF only when nothing was stored. */
  lemma {:induction false} RunStoresInOrder(s: string, format: seq<Directive>, values: seq<Value>)
    ensures var r := Run(s, format, values);
      && |values| <= |r.values| <= |values| + Conversions(format)
      && (r.ret == -1 ==> r.values == [])
      && (r.ret != -1 ==> r.ret == |r.values|)
    decreases format
  {
    if format != [] {
      var rest := format[1..];
      assert Conversions(format) == (if format[0].Lit? || format[0].Space? then 0 else 1) + Conversions(rest);
      match format[0]
      case Lit(c) =>
        if s != [] && s[0] == c { RunStoresInOrder(s[1..], rest, values); }
      case Space => RunStoresInOrder(SkipSpace(s), rest, values);
      case Scanset(chars, negated, width) =>
        var n := ScansetRun(s, chars, negated, width);
        if n != 0 { RunStoresInOrder(s[n..], rest, values + [Text(s[..n])]); }
      case Word =>
        var t := SkipSpace(s);
        if t != [] { var n := WordRun(t); RunStoresInOrder(t[n..], rest, values + [Text(t[..n])]); }
      case Integer(autoBase) =>
        var t := SkipSpace(s);
        if t != [] && ScanInteger(t, autoBase).Some? {
          var m := ScanInteger(t, autoBase).value;
          RunStoresInOrder(t[m.1..], rest, values + [Number(m.0)]);
        }
    }
  }

  /** The text a single-conversion sscanf stored in its first argument, if it stored one. */
  function StoredText(r: Scanned): Option<string> {
    if |r.values| > 0 && r.values[0].Text? then Some(r.values[0].s) else None
  }

  /** The number sscanf stored in its argument number `i`, if it stored one. */
  function StoredNumber(r: Scanned, i: nat): Option<int> {
    if i < |r.values| && r.values[i].Number? then Some(r.values[i].n) else None
  }

  /** `%[^\n]`, optionally with a maximum field width. */
  function RestOfLine(width: nat): Directive {
    Scanset({'\n'}, true, width)
  }

  predicate NoSpace(text: string) {
    forall i :: 0 <= i < |text| ==> !IsSpace(text[i])
  }

  /** A literal without white space is consumed character by character. */
  lemma {:induction false} LiteralMatches(text: string, rest: string, format: seq<Directive>, values: seq<Value>)
    requires NoSpace(text)
    ensures Run(text + rest, Literal(text) + format, values) == Run(rest, format, values)
  {
    if text == [] {
      assert text + rest == rest && Literal(text) + format == format;
    } else {
      assert !IsSpace(text[0]);
      LiteralHead(text, format);
      assert (text + rest)[1..] == text[1..] + rest;
      LitStep(text + rest, Literal(text) + format, values);
      LiteralMatches(text[1..], rest, format, values);
    }
  }

  /** The first character of a literal without white space, and what follows it. */
  lemma LiteralHead(text: string, format: seq<Directive>)
    requires text != [] && !IsSpace(text[0])
    ensures (Literal(text) + format)[0] == Lit(text[0])
    ensures (Literal(text) + format)[1..] == Literal(text[1..]) + format
  {
    var f := Literal(text);
    assert f[0] == Lit(text[0]) && f[1..] == Literal(text[1..]);
    assert (f + format)[1..] == f[1..] + format;
  }

  /** A literal character that the input starts with is consumed. */
  lemma LitStep(s: string, f: seq<Directive>, values: seq<Value>)
    requires s != [] && f != [] && f[0] == Lit(s[0])
    ensures Run(s, f, values) == Run(s[1..], f[1..], values)
  {
  }

  /** A literal without white space that first differs from the input at index `i`,
      where the input has not yet ended, is a matching failure: nothing is stored
      and sscanf returns 0. */
  lemma {:induction false} LiteralMismatch(text: string, s: string, format: seq<Directive>, i: nat)
    requires NoSpace(text)
    requires i < |text| && i < |s| && text[..i] == s[..i] && text[i] != s[i]
    ensures Run(s, Literal(text) + format, []) == Scanned(0, [])
  {
    assert (Literal(text) + format)[0] == Lit(text[0]);
    if i > 0 {
      assert text[0] == s[0] by { assert text[..i][0] == s[..i][0]; }
      assert (Literal(text) + format)[1..] == Literal(text[1..]) + format;
      assert text[1..][..i - 1] == s[1..][..i - 1] by {
        assert text[1..][..i - 1] == text[..i][1..];
        assert s[1..][..i - 1] == s[..i][1..];
      }
      LiteralMismatch(text[1..], s[1..], format, i - 1);
    }
  }

  /** A literal without white space that is a prefix of neither the input nor
      extended by it makes sscanf return 0: the difference comes before the input ends. */
  lemma LiteralDiffers(text: string, s: string, format: seq<Directive>)
    requires NoSpace(text)
    requires !(text <= s) && !(s <= text)
    ensures Run(s, Literal(text) + format, []) == Scanned(0, [])
  {
    var i := FirstDifference(text, s);
    LiteralMismatch(text, s, format, i);
  }

  /** A literal without white space that starts the input leaves the rest of the
      format to the input after it. */
  lemma LiteralPrefix(text: string, s: string, format: seq<Directive>)
    requires NoSpace(text) && text <= s
    ensures Run(s, Literal(text) + format, []) == Run(s[|text|..], format, [])
  {
    assert s == text + s[|text|..];
    LiteralMatches(text, s[|text|..], format, []);
  }

  /** An input that ends inside a literal without white space is an input failure:
      sscanf returns EOF. */
  lemma {:induction false} LiteralEnds(text: string, s: string, format: seq<Directive>)
    requires NoSpace(text) && s <= text && |s| < |text|
    ensures Run(s, Literal(text) + format, []) == Scanned(-1, [])
  {
    var f := Literal(text) + format;
    assert f[0] == Lit(text[0]);
    if s != [] {
      assert s[0] == text[0];
      assert f[1..] == Literal(text[1..]) + format;
      assert s[1..] <= text[1..];
      LiteralEnds(text[1..], s[1..], format);
    }
  }

  /** sscanf with a format that starts with a literal without white space: the
      rest of the format reads what follows the literal; an input that ends inside
      the literal is EOF; any other input fails to match and stores nothing. */
  lemma SscanfAfterLiteral(text: string, s: string, format: seq<Directive>)
    requires NoSpace(text)
    ensures text <= s ==> Sscanf(s, Literal(text) + format) == Run(s[|text|..], format, [])
    ensures !(text <= s) && s <= text ==> Sscanf(s, Literal(text) + format) == Scanned(-1, [])
    ensures !(text <= s) && !(s <= text) ==> Sscanf(s, Literal(text) + format) == Scanned(0, [])
  {
    if text <= s {
      LiteralPrefix(text, s, format);
    } else if s <= text {
      LiteralEnds(text, s, format);
    } else {
      LiteralDiffers(text, s, format);
    }
  }

  /** The first index at which two sequences, neither a prefix of the other, differ. */
  lemma {:induction false} FirstDifference(a: string, b: string) returns (i: nat)
    requires !(a <= b) && !(b <= a)
    ensures i < |a| && i < |b| && a[..i] == b[..i] && a[i] != b[i]
  {
    if a[0] != b[0] {
      i := 0;
    } else {
      assert a == [a[0]] + a[1..] && b == [b[0]] + b[1..];
      assert a[1..] <= b[1..] ==> a <= b;
      assert b[1..] <= a[1..] ==> b <= a;
      var j := FirstDifference(a[1..], b[1..]);
      i := j + 1;
      assert a[..i] == [a[0]] + a[1..][..j];
      assert b[..i] == [b[0]] + b[1..][..j];
    }
  }

  /** What a literal `key` that the input does not start with leaves: EOF when the
      input ends inside it, a matching failure otherwise. */
  function Unmatched(s: string, key: string): Scanned {
    if s <= key then Scanned(-1, []) else Scanned(0, [])
  }

  /** What the rest of a format does once a literal `key` comes next. */
  function AfterKey(s: string, key: string, format: seq<Directive>): Scanned {
    if key <= s then Run(s[|key|..], format, []) else Unmatched(s, key)
  }

  /** Input that starts with the literal leaves the rest of the format what follows it. */
  lemma AfterKeyPrefix(key: string, t: string, format: seq<Directive>)
    ensures AfterKey(key + t, key, format) == Run(t, format, [])
  {
    assert (key + t)[..|key|] == key && (key + t)[|key|..] == t;
  }

  /** Input that starts with the literal has the literal as a prefix, followed by the rest. */
  lemma KeyPrefix(key: string, t: string)
    ensures key <= key + t && (key + t)[|key|..] == t
  {
  }

  /** Input whose first character is not the literal's is a matching failure. */
  lemma FirstCharDiffers(s: string, key: string, format: seq<Directive>)
    requires s != [] && key != [] && s[0] != key[0]
    ensures AfterKey(s, key, format) == Scanned(0, [])
  {
  }

  /** Input that does not start with white space has none to skip. */
  lemma NothingToSkip(s: string)
    requires s != [] && !IsSpace(s[0])
    ensures SkipSpace(s) == s
  {
  }

  /** A literal without white space, met before anything was stored. */
  lemma RunAfterKey(key: string, s: string, format: seq<Directive>)
    requires NoSpace(key)
    ensures Run(s, Literal(key) + format, []) == AfterKey(s, key, format)
  {
    if key <= s {
      LiteralPrefix(key, s, format);
    } else if s <= key {
      LiteralEnds(key, s, format);
    } else {
      LiteralDiffers(key, s, format);
    }
  }

  /** A white-space directive skips the white space the input starts with. */
  lemma RunAfterSpace(s: string, format: seq<Directive>, values: seq<Value>)
    ensures Run(s, [Space] + format, values) == Run(SkipSpace(s), format, values)
  {
    assert ([Space] + format)[0] == Space && ([Space] + format)[1..] == format;
  }

  /** A second white-space directive finds nothing left to skip. */
  lemma SkipSpaceTwice(s: string)
    ensures SkipSpace(SkipSpace(s)) == SkipSpace(s)
  {
  }

  /** A %d or %i that reads an integer stores it and leaves the rest of the input
      to the rest of the format. */
  lemma IntegerThen(t: string, autoBase: bool, n: int, k: nat, format: seq<Directive>, values: seq<Value>)
    requires t != [] && !IsSpace(t[0])
    requires ScanInteger(t, autoBase) == Some((n, k))
    ensures Run(t, [Integer(autoBase)] + format, values) == Run(t[k..], format, values + [Number(n)])
  {
    assert SkipSpace(t) == t;
    assert ([Integer(autoBase)] + format)[1..] == format;
  }

  /** `%[^"]` reads exactly up to the first quote. */
  lemma QuoteRun(path: string, rest: string)
    requires '"' !in path
    ensures ScansetRun(path + "\"" + rest, {'"'}, true, 0) == |path|
  {
    var t := path + "\"" + rest;
    assert forall i :: 0 <= i < |path| ==> t[i] == path[i];
    assert t[|path|] == '"';
  }

  /** `%[^"]"` on a non-empty text without quotes, then a quote: the text is stored. */
  lemma QuotedTextRun(path: string, rest: string)
    requires path != [] && '"' !in path
    ensures Run(path + "\"" + rest, [Scanset({'"'}, true, 0), Lit('"')], []) == Scanned(1, [Text(path)])
  {
    var t := path + "\"" + rest;
    QuoteRun(path, rest);
    assert t[..|path|] == path && t[|path|..] == "\"" + rest;
    assert ("\"" + rest)[1..] == rest;
  }

  /** %s reads a word up to the white space after it. */
  lemma {:induction false} WordRunStops(w: string, rest: string)
    requires NoSpace(w) && (rest == [] || IsSpace(rest[0]))
    ensures WordRun(w + rest) == |w|
  {
    if w != [] {
      assert (w + rest)[0] == w[0] && (w + rest)[1..] == w[1..] + rest;
      WordRunStops(w[1..], rest);
    } else {
      assert w + rest == rest;
    }
  }

  /** A %s that meets a word stores it and leaves what follows the word. */
  lemma WordThen(w: string, rest: string, format: seq<Directive>, values: seq<Value>)
    requires w != [] && NoSpace(w) && (rest == [] || IsSpace(rest[0]))
    ensures Run(w + rest, [Word] + format, values) == Run(rest, format, values + [Text(w)])
  {
    var s := w + rest;
    assert s[0] == w[0];
    assert SkipSpace(s) == s;
    WordRunStops(w, rest);
    assert s[..|w|] == w && s[|w|..] == rest;
    assert ([Word] + format)[1..] == format;
  }

  /** A run of blanks before a character that is not white space is skipped whole. */
  lemma {:induction false} SkipBlanks(blanks: string, s: string)
    requires forall i :: 0 <= i < |blanks| ==> IsSpace(blanks[i])
    requires s == [] || !IsSpace(s[0])
    ensures SkipSpace(blanks + s) == s
  {
    if blanks != [] {
      assert (blanks + s)[1..] == blanks[1..] + s;
      SkipBlanks(blanks[1..], s);
    } else {
      assert blanks + s == s;
    }
  }

  /** `%W[^\n]` followed by nothing stores a whole non-empty line of at most W
      characters (of any length when there is no width). */
  lemma RestOfLineStoresValue(v: string, width: nat, values: seq<Value>)
    requires 0 < |v| && (width == 0 || |v| <= width) && '\n' !in v
    ensures Run(v + "\n", [RestOfLine(width)], values) == Scanned(|values| + 1, values + [Text(v)])
  {
    var s := v + "\n";
    RestOfLineRun(v, width);
    assert s[..|v|] == v && s[|v|..] == "\n";
    assert Run(s, [RestOfLine(width)], values) == Run("\n", [], values + [Text(v)]);
  }

  /** `%W[^\n]` stops at the newline that ends a line of at most W characters. */
  lemma {:induction false} RestOfLineRun(v: string, width: nat)
    requires (width == 0 || |v| <= width) && '\n' !in v
    ensures ScansetRun(v + "\n", {'\n'}, true, width) == |v|
  {
    if v != [] {
      assert v[0] in v;
      assert (v + "\n")[0] == v[0] && (v + "\n")[1..] == v[1..] + "\n";
      assert forall i :: 0 <= i < |v[1..]| ==> v[1..][i] == v[i + 1];
      if width == 1 {
        assert |v| == 1;
      } else {
        RestOfLineRun(v[1..], if width == 0 then 0 else width - 1);
      }
    }
  }

  /** `%W[^\n]` on an empty value (the line is only its newline) is a matching failure. */
  lemma RestOfLineEmpty(width: nat, values: seq<Value>)
    ensures Run("\n", [RestOfLine(width)], values) == Scanned(|values|, values)
  {
    assert ScansetRun("\n", {'\n'}, true, width) == 0;
  }

  // ------------------------------------------------------------------
  // printf's %d and %u

  function DigitChar(d: nat): (c: char)
    requires d < 10
    ensures DigitValue(c) == d
  {
    ('0' as int + d) as char
  }

  /** `%u` of a natural number: its decimal digits, no leading zero. */
  function NatString(n: nat): (s: string)
    ensures |s| > 0
    ensures forall i :: 0 <= i < |s| ==> '0' <= s[i] <= '9'
    ensures n > 0 ==> s[0] != '0'
    ensures n == 0 ==> s == "0"
  {
    if n < 10 then [DigitChar(n)] else NatString(n / 10) + [DigitChar(n % 10)]
  }

  /** `%d` of an integer. */
  function IntString(n: int): string {
    if n < 0 then "-" + NatString(-n) else NatString(n)
  }

  function Pow10(k: nat): (p: nat)
    ensures p > 0
  {
    if k == 0 then 1 else 10 * Pow10(k - 1)
  }

  /** A number below 10^k prints in at most k digits. */
  lemma {:induction false} NatStringLength(n: nat, k: nat)
    requires 0 < k && n < Pow10(k)
    ensures |NatString(n)| <= k
  {
    if n >= 10 {
      assert k > 1;
      NatStringLength(n / 10, k - 1);
    }
  }

  /** The 32-bit range of a C int. */
  predicate IsInt32(n: int) {
    -0x8000_0000 <= n < 0x8000_0000
  }

  /** `%d` of a C int takes at most eleven characters. */
  lemma IntStringLength(n: int)
    requires IsInt32(n)
    ensures |IntString(n)| <= 11
  {
    assert Pow10(5) == 100_000;
    assert Pow10(10) == 100_000 * Pow10(5);
    NatStringLength(if n < 0 then -n else n, 10);
  }

  /** Decimal digits read back give the number printed. */
  lemma {:induction false} NatStringValue(n: nat)
    ensures DigitsValue(NatString(n), 10) == n
  {
    var s := NatString(n);
    if n >= 10 {
      NatStringValue(n / 10);
      assert s[..|s| - 1] == NatString(n / 10);
    }
  }

  /** The digit run of a printed number stops where the number does. */
  lemma {:induction false} DigitRunStops(digits: string, rest: string, base: nat)
    requires forall i :: 0 <= i < |digits| ==> DigitValue(digits[i]) < base
    requires rest != [] ==> DigitValue(rest[0]) >= base
    ensures DigitRun(digits + rest, base) == |digits|
  {
    if digits != [] {
      assert (digits + rest)[1..] == digits[1..] + rest;
      DigitRunStops(digits[1..], rest, base);
    }
  }

  /** `%i` reads back the digits `%u` printed, when a newline follows. */
  lemma MagnitudeReadsNatString(m: nat)
    ensures Magnitude(NatString(m) + "\n", true) == Some((m, |NatString(m)|))
  {
    var digits := NatString(m);
    var u := digits + "\n";
    assert DigitValue('\n') >= 16;
    NatStringValue(m);
    if m == 0 {
      assert u == "0\n";
      DigitRunStops(digits, "\n", 8);
      assert DigitRun(u, 8) == 1;
      assert u[..1] == "0";
      assert DigitsValue("0", 8) == 0;
    } else {
      assert u[0] == digits[0] != '0';
      DigitRunStops(digits, "\n", 10);
      assert u[..|digits|] == digits;
      assert DigitRun(u, 10) == |digits|;
      assert DigitsValue(u[..|digits|], 10) == m;
    }
  }

  /** `%d` reads back the digits `%u` printed, when no digit follows them. */
  lemma DecimalReadsNatString(m: nat, rest: string)
    requires rest == [] || DigitValue(rest[0]) >= 10
    ensures ScanInteger(NatString(m) + rest, false) == Some((m, |NatString(m)|))
  {
    var digits := NatString(m);
    NatStringValue(m);
    DecimalReads(digits, rest);
  }

  /** `%d` on input that starts with a digit reads the whole run of digits. */
  lemma ScanDecimal(u: string)
    requires u != [] && '0' <= u[0] <= '9'
    ensures ScanInteger(u, false) == Some((DigitsValue(u[..DigitRun(u, 10)], 10), DigitRun(u, 10)))
  {
    assert u[0..] == u;
  }

  /** A %d reads the digits `%u` printed, leaving what follows them to the rest
      of the format. */
  lemma NumberThen(n: nat, rest: string, format: seq<Directive>, values: seq<Value>)
    requires rest == [] || DigitValue(rest[0]) >= 10
    ensures Run(NatString(n) + rest, [Integer(false)] + format, values)
         == Run(rest, format, values + [Number(n)])
  {
    var t := NatString(n) + rest;
    DecimalReadsNatString(n, rest);
    assert t[0] == NatString(n)[0] && t[|NatString(n)|..] == rest;
    IntegerThen(t, false, n, |NatString(n)|, format, values);
  }

  /** The same after a white-space directive, which skips what comes before the digits. */
  lemma SpaceThenNumber(s: string, n: nat, rest: string, format: seq<Directive>, values: seq<Value>)
    requires SkipSpace(s) == NatString(n) + rest
    requires rest == [] || DigitValue(rest[0]) >= 10
    ensures Run(s, [Space, Integer(false)] + format, values) == Run(rest, format, values + [Number(n)])
  {
    SpaceIntegerShape(format);
    RunAfterSpace(s, [Integer(false)] + format, values);
    NumberThen(n, rest, format, values);
  }

  /** A run of decimal digits. */
  predicate Decimal(d: string) {
    d != [] && forall i :: 0 <= i < |d| ==> '0' <= d[i] <= '9'
  }

  /** `%d` reads a run of decimal digits whole, up to what is not a digit. */
  lemma DecimalReads(d: string, rest: string)
    requires Decimal(d) && (rest == [] || DigitValue(rest[0]) >= 10)
    ensures ScanInteger(d + rest, false) == Some((DigitsValue(d, 10), |d|))
  {
    var u := d + rest;
    DigitRunStops(d, rest, 10);
    assert u[..|d|] == d && u[0] == d[0];
    ScanDecimal(u);
  }

  /** A white-space directive and a %d that reads an integer after the white space. */
  lemma SpaceThenInteger(s: string, n: int, k: nat, format: seq<Directive>, values: seq<Value>)
    requires SkipSpace(s) != [] && ScanInteger(SkipSpace(s), false) == Some((n, k))
    ensures Run(s, [Space, Integer(false)] + format, values) == Run(SkipSpace(s)[k..], format, values + [Number(n)])
  {
    var f := [Integer(false)] + format;
    SpaceIntegerShape(format);
    RunAfterSpace(s, f, values);
    var t := SkipSpace(s);
    SkipSpaceTwice(s);
    IntegerThen(t, false, n, k, format, values);
  }

  lemma SpaceIntegerShape(format: seq<Directive>)
    ensures [Space, Integer(false)] + format == [Space] + ([Integer(false)] + format)
  {
  }

  /** A final ` %d` reads what SkipSpace leaves: the digits `%u` printed. */
  lemma SpaceThenLastNumber(s: string, n: nat, rest: string, values: seq<Value>)
    requires SkipSpace(s) == NatString(n) + rest
    requires rest == [] || DigitValue(rest[0]) >= 10
    ensures Run(s, [Space, Integer(false)], values) == Scanned(|values| + 1, values + [Number(n)])
  {
    SpaceThenNumber(s, n, rest, [], values);
    assert [Space, Integer(false)] + [] == [Space, Integer(false)];
  }

  /** ` %d` reads a blank and the digits `%u` printed, when a newline follows. */
  lemma SpacedNumberLine(n: nat)
    ensures Run(" " + (NatString(n) + "\n"), [Space, Integer(false)], []) == Scanned(1, [Number(n)])
  {
    var digits := NatString(n) + "\n";
    assert digits[0] == NatString(n)[0];
    SkipBlanks(" ", digits);
    SpaceThenNumber(" " + digits, n, "\n", [], []);
    assert [Space, Integer(false)] + [] == [Space, Integer(false)];
  }

  /** A minus sign negates the magnitude that follows it. */
  lemma ScanNegative(u: string, autoBase: bool, m: nat, k: nat)
    requires Magnitude(u, autoBase) == Some((m, k))
    ensures ScanInteger("-" + u, autoBase) == Some((-(m as int), k + 1))
  {
    assert ("-" + u)[1..] == u;
  }

  /** Without a sign the magnitude is the number. */
  lemma ScanUnsigned(u: string, autoBase: bool, m: nat, k: nat)
    requires u != [] && u[0] != '-' && u[0] != '+'
    requires Magnitude(u, autoBase) == Some((m, k))
    ensures ScanInteger(u, autoBase) == Some((m, k))
  {
    assert u[0..] == u;
  }

  /** `%i` reads back what `%d` printed, when a newline follows. */
  lemma ScanIntegerReadsIntString(n: int)
    ensures ScanInteger(IntString(n) + "\n", true) == Some((n, |IntString(n)|))
  {
    if n < 0 {
      NegativeReads(-n);
    } else {
      NonNegativeReads(n);
    }
  }

  lemma NegativeReads(m: nat)
    requires m > 0
    ensures var n := -(m as int); ScanInteger(IntString(n) + "\n", true) == Some((n, |IntString(n)|))
  {
    var digits := NatString(m);
    MagnitudeReadsNatString(m);
    NegativeString(m);
    ScanNegative(digits + "\n", true, m, |digits|);
  }

  lemma NegativeString(m: nat)
    requires m > 0
    ensures IntString(-(m as int)) + "\n" == "-" + (NatString(m) + "\n")
  {
    assert IntString(-(m as int)) == "-" + NatString(m);
  }

  lemma NonNegativeReads(m: nat)
    ensures ScanInteger(IntString(m) + "\n", true) == Some((m as int, |IntString(m)|))
  {
    var digits := NatString(m);
    MagnitudeReadsNatString(m);
    assert IntString(m) + "\n" == digits + "\n";
    ScanUnsigned(digits + "\n", true, m, |digits|);
  }

  /** A final %i or %d that reads an integer stores it and ends the run. */
  lemma IntegerRun(t: string, autoBase: bool, n: int, k: nat, values: seq<Value>)
    requires t != [] && !IsSpace(t[0])
    requires ScanInteger(t, autoBase) == Some((n, k))
    ensures Run(t, [Integer(autoBase)], values) == Scanned(|values| + 1, values + [Number(n)])
  {
    assert SkipSpace(t) == t;
  }

  /** `<key>=%i` stores the number `<key>=%d` printed. */
  lemma IntegerLineStoresValue(key: string, n: int)
    requires NoSpace(key)
    ensures Sscanf(key + IntString(n) + "\n", Literal(key) + [Integer(true)]) == Scanned(1, [Number(n)])
  {
    var t := IntString(n) + "\n";
    assert key + IntString(n) + "\n" == key + t;
    LiteralMatches(key, t, [Integer(true)], []);
    ScanIntegerReadsIntString(n);
    IntStringStart(n, "\n");
    IntegerRun(t, true, n, |IntString(n)|, []);
  }

  /** A printed integer, whatever follows it, starts with a sign or a digit. */
  lemma IntStringStart(n: int, rest: string)
    ensures var t := IntString(n) + rest; t != [] && !IsSpace(t[0])
  {
    var t := IntString(n) + rest;
    if n >= 0 {
      assert t[0] == NatString(n)[0];
    }
  }

  /** `<key>=%W[^\n]` stores the value of a line `<key>=<value>\n` when the value is
      non-empty and at most W long, and stores nothing (returning 0) when it is empty. */
  lemma TextLineStoresValue(key: string, v: string, width: nat)
    requires NoSpace(key) && '\n' !in v && |v| <= width
    ensures Sscanf(key + v + "\n", Literal(key) + [RestOfLine(width)])
         == if v == [] then Scanned(0, []) else Scanned(1, [Text(v)])
  {
    assert key + v + "\n" == key + (v + "\n");
    LiteralMatches(key, v + "\n", [RestOfLine(width)], []);
    if v == [] {
      assert v + "\n" == "\n";
      RestOfLineEmpty(width, []);
    } else {
      RestOfLineStoresValue(v, width, []);
    }
  }

}
