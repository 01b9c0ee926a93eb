/** The text form of a route in the admin console: what is printed into the form and what is read back from it. */
module RouteText {

  datatype StopLine<T> = StopLine(name: string, lat: T, lng: T)

  datatype Read<T> = Good(value: seq<T>) | Bad(line: nat, message: string)

  // ---- Text -----------------------------------------------------------------

  /** White space as `trim` understands it. */
  predicate IsBlank(c: char) {
    || c == ' ' || '\U{0009}' <= c <= '\U{000D}' || c == '\U{00A0}' || c == '\U{1680}'
    || '\U{2000}' <= c <= '\U{200A}' || c == '\U{2028}' || c == '\U{2029}' || c == '\U{202F}'
    || c == '\U{205F}' || c == '\U{3000}' || c == '\U{FEFF}'
  }

  function TrimLeft(s: string): (r: string)
    ensures r == [] || !IsBlank(r[0])
  {
    if s != [] && IsBlank(s[0]) then TrimLeft(s[1..]) else s
  }

  function TrimRight(s: string): (r: string)
    ensures r == [] || !IsBlank(r[|r| - 1])
    ensures r <= s
  {
    if s != [] && IsBlank(s[|s| - 1]) then TrimRight(s[..|s| - 1]) else s
  }

  function Trim(s: string): string {
    TrimRight(TrimLeft(s))
  }

  predicate IsTrimmed(s: string) {
    s == [] || (!IsBlank(s[0]) && !IsBlank(s[|s| - 1]))
  }

  /** Cuts at every `sep`; the empty text is one empty part. */
  function Split(s: string, sep: char): (parts: seq<string>)
    ensures parts != []
  {
    if s == [] then [[]]
    else
      var rest := Split(s[1..], sep);
      if s[0] == sep then [[]] + rest else [[s[0]] + rest[0]] + rest[1..]
  }

  function Join(parts: seq<string>, sep: char): string {
    if parts == [] then []
    else if |parts| == 1 then parts[0]
    else parts[0] + [sep] + Join(parts[1..], sep)
  }

  /** A text as the text area of the form gives it back: a carriage return, with or without a line feed, ends a line. */
  function FormValue(text: string): (r: string)
    ensures '\r' !in r
    ensures '\r' !in text ==> r == text
  {
    if text == [] then []
    else if text[0] != '\r' then
      assert '\r' !in text ==> text == [text[0]] + text[1..] && '\r' !in text[1..];
      [text[0]] + FormValue(text[1..])
    else "\n" + FormValue(text[if |text| > 1 && text[1] == '\n' then 2 else 1..])
  }

  predicate Free(s: string, c: char) {
    c !in s
  }

  // ---- Numbers ------------------------------------------------------------------

  /** The numbers of the form and how they are written and read; what numbers there are is left open. */
  datatype Numbers<!T> = Numbers(write: T -> string, read: string -> bool, value: string -> T)

  /** A written number reads back as itself, and has no white space, bar or comma in it. */
  ghost predicate WritesNumbers<T(!new)>(n: Numbers<T>) {
    forall x :: n.read(n.write(x)) && n.value(n.write(x)) == x && IsNumberText(n.write(x))
  }

  predicate IsNumberText(s: string) {
    s != [] && '|' !in s && ',' !in s && forall c :: c in s ==> !IsBlank(c)
  }

  // Whole numbers in decimal digits are an example.

  function Digit(k: nat): char
    requires k < 10
  {
    '0' + k as char
  }

  predicate IsDigits(s: string) {
    s != [] && forall c :: c in s ==> '0' <= c <= '9'
  }

  function WriteNat(x: nat): (s: string)
    ensures IsDigits(s)
  {
    if x < 10 then [Digit(x)] else WriteNat(x / 10) + [Digit(x % 10)]
  }

  function NatOf(s: string): nat {
    if s == [] then 0
    else
      var c := s[|s| - 1];
      10 * NatOf(s[..|s| - 1]) + if '0' <= c <= '9' then (c - '0') as nat else 0
  }

  function WriteInt(x: int): string {
    if x < 0 then "-" + WriteNat(-x) else WriteNat(x)
  }

  predicate IsInt(s: string) {
    IsDigits(s) || (s != [] && s[0] == '-' && IsDigits(s[1..]))
  }

  function IntOf(s: string): int {
    if s != [] && s[0] == '-' then 0 - NatOf(s[1..]) else NatOf(s)
  }

  const WHOLE_NUMBERS: Numbers<int> := Numbers(WriteInt, IsInt, IntOf)

  lemma {:induction false} NatReadsBack(x: nat)
    ensures NatOf(WriteNat(x)) == x
  {
    if x < 10 {
      assert [Digit(x)][..0] == [];
    } else {
      NatReadsBack(x / 10);
      assert WriteNat(x)[..|WriteNat(x)| - 1] == WriteNat(x / 10);
    }
  }

  /** So there are numbers that can be written as the round trips below ask. */
  lemma WholeNumbersAreWritten()
    ensures WritesNumbers(WHOLE_NUMBERS)
  {
    forall x: int
      ensures IsInt(WriteInt(x)) && IntOf(WriteInt(x)) == x && IsNumberText(WriteInt(x))
    {
      var n: nat := if x < 0 then -x else x;
      NatReadsBack(n);
      assert WriteNat(n)[0] in WriteNat(n);
      assert forall c :: '0' <= c <= '9' ==> !IsBlank(c);
      if x < 0 {
        assert WriteInt(x)[1..] == WriteNat(n);
      }
    }
  }

  // ---- Printing and parsing --------------------------------------------------------

  function PrintStop<T>(n: Numbers<T>, s: StopLine<T>): string {
    s.name + " | " + n.write(s.lat) + " | " + n.write(s.lng)
  }

  function PrintStops<T>(n: Numbers<T>, stops: seq<StopLine<T>>): (lines: seq<string>)
    ensures |lines| == |stops| && forall i :: 0 <= i < |stops| ==> lines[i] == PrintStop(n, stops[i])
  {
    if stops == [] then [] else [PrintStop(n, stops[0])] + PrintStops(n, stops[1..])
  }

  function StopsText<T>(n: Numbers<T>, stops: seq<StopLine<T>>): string {
    Join(PrintStops(n, stops), '\n')
  }

  /** Trims the lines and drops the empty ones. */
  function Lines(raw: seq<string>): seq<string> {
    if raw == [] then []
    else (if Trim(raw[0]) != [] then [Trim(raw[0])] else []) + Lines(raw[1..])
  }

  function TrimAll(parts: seq<string>): (r: seq<string>)
    ensures |r| == |parts| && forall i :: 0 <= i < |parts| ==> r[i] == Trim(parts[i])
  {
    if parts == [] then [] else [Trim(parts[0])] + TrimAll(parts[1..])
  }

  function ParseStop<T>(n: Numbers<T>, line: string, number: nat): Read<StopLine<T>> {
    var parts := TrimAll(Split(line, '|'));
    if |parts| != 3 then Bad(number, "expected \"Name | lat | lng\"")
    else if parts[0] == [] then Bad(number, "name is empty")
    else if !n.read(parts[1]) || !n.read(parts[2]) then Bad(number, "coordinates must be numbers")
    else Good([StopLine(parts[0], n.value(parts[1]), n.value(parts[2]))])
  }

  function ParseStopLines<T>(n: Numbers<T>, lines: seq<string>, number: nat): Read<StopLine<T>> {
    if lines == [] then Good([])
    else
      var first := ParseStop(n, lines[0], number);
      if first.Bad? then first
      else
        var rest := ParseStopLines(n, lines[1..], number + 1);
        if rest.Bad? then rest else Good(first.value + rest.value)
  }

  function ParseStops<T>(n: Numbers<T>, text: string): Read<StopLine<T>> {
    ParseStopLines(n, Lines(Split(text, '\n')), 1)
  }

  function PrintPoint<T>(n: Numbers<T>, p: (T, T)): string {
    n.write(p.0) + ", " + n.write(p.1)
  }

  function PrintPoints<T>(n: Numbers<T>, path: seq<(T, T)>): (lines: seq<string>)
    ensures |lines| == |path| && forall i :: 0 <= i < |path| ==> lines[i] == PrintPoint(n, path[i])
  {
    if path == [] then [] else [PrintPoint(n, path[0])] + PrintPoints(n, path[1..])
  }

  function PathText<T>(n: Numbers<T>, path: seq<(T, T)>): string {
    Join(PrintPoints(n, path), '\n')
  }

  function ParsePoint<T>(n: Numbers<T>, line: string, number: nat): Read<(T, T)> {
    var parts := TrimAll(Split(line, ','));
    if |parts| != 2 || !n.read(parts[0]) || !n.read(parts[1]) then Bad(number, "expected \"lat, lng\"")
    else Good([(n.value(parts[0]), n.value(parts[1]))])
  }

  function ParsePoints<T>(n: Numbers<T>, lines: seq<string>, number: nat): Read<(T, T)> {
    if lines == [] then Good([])
    else
      var first := ParsePoint(n, lines[0], number);
      if first.Bad? then first
      else
        var rest := ParsePoints(n, lines[1..], number + 1);
        if rest.Bad? then rest else Good(first.value + rest.value)
  }

  function ParsePath<T>(n: Numbers<T>, text: string): Read<(T, T)> {
    ParsePoints(n, Lines(Split(text, '\n')), 1)
  }

  // ---- Facts about text ---------------------------------------------------------------

  lemma {:induction false} SplitFree(s: string, sep: char)
    requires Free(s, sep)
    ensures Split(s, sep) == [s]
  {
    if s != [] {
      SplitFree(s[1..], sep);
      assert [s[0]] + s[1..] == s;
    }
  }

  lemma {:induction false} SplitAfter(s: string, sep: char, rest: string)
    requires Free(s, sep)
    ensures Split(s + [sep] + rest, sep) == [s] + Split(rest, sep)
  {
    if s == [] {
      assert s + [sep] + rest == [sep] + rest;
    } else {
      SplitAfter(s[1..], sep, rest);
      assert (s + [sep] + rest)[1..] == s[1..] + [sep] + rest;
      assert [s[0]] + s[1..] == s;
    }
  }

  lemma {:induction false} SplitJoin(parts: seq<string>, sep: char)
    requires parts != [] && forall p :: p in parts ==> Free(p, sep)
    ensures Split(Join(parts, sep), sep) == parts
  {
    if |parts| == 1 {
      SplitFree(parts[0], sep);
    } else {
      SplitJoin(parts[1..], sep);
      SplitAfter(parts[0], sep, Join(parts[1..], sep));
    }
  }

  lemma {:induction false} PartsAreFree(s: string, sep: char, p: string)
    requires p in Split(s, sep)
    ensures Free(p, sep) && forall c :: c in p ==> c in s
  {
    if s != [] {
      var rest := Split(s[1..], sep);
      if s[0] != sep && p == [s[0]] + rest[0] {
        PartsAreFree(s[1..], sep, rest[0]);
      } else if p in rest {
        PartsAreFree(s[1..], sep, p);
      }
    }
  }

  lemma {:induction false} TrimLeftPad(s: string)
    requires IsTrimmed(s)
    ensures TrimLeft(s) == s && TrimLeft(" " + s) == s
  {
    assert (" " + s)[1..] == s;
  }

  lemma TrimPadded(s: string)
    requires IsTrimmed(s)
    ensures Trim(s) == Trim(s + " ") == Trim(" " + s) == Trim(" " + s + " ") == s
  {
    TrimLeftPad(s);
    assert (s + " ")[..|s|] == s;
    if s == [] {
      assert s + " " == " " + s == " ";
      assert " "[1..] == [];
      assert " " + s + " " == "  " && "  "[1..] == " ";
    } else {
      assert TrimLeft(s + " ") == s + " ";
      assert (" " + s + " ")[1..] == s + " ";
    }
  }

  lemma {:induction false} TrimLeftKeeps(s: string, c: char)
    requires c in TrimLeft(s)
    ensures c in s
  {
    if s != [] && IsBlank(s[0]) {
      TrimLeftKeeps(s[1..], c);
    }
  }

  /** What `trim` returns is trimmed and holds no character that was not there. */
  lemma TrimIsTrimmed(s: string)
    ensures IsTrimmed(Trim(s)) && forall c :: c in Trim(s) ==> c in s
  {
    forall c | c in Trim(s)
      ensures c in s
    {
      assert c in TrimLeft(s);
      TrimLeftKeeps(s, c);
    }
  }

  // ---- What is read ---------------------------------------------------------------------

  /** Blank lines are dropped, wherever they are, and the others trimmed. */
  lemma {:induction false} LinesAdd(raw: seq<string>, more: seq<string>)
    ensures Lines(raw + more) == Lines(raw) + Lines(more)
    ensures forall l :: Lines([l]) == if Trim(l) == [] then [] else [Trim(l)]
  {
    hide Trim;
    forall l
      ensures Lines([l]) == if Trim(l) == [] then [] else [Trim(l)]
    {
      assert Lines([l][1..]) == [];
    }
    if raw == [] {
      assert raw + more == more;
    } else {
      LinesAdd(raw[1..], more);
      assert (raw + more)[1..] == raw[1..] + more;
    }
  }

  /** The first carriage return of a text ends a line, together with a line feed right behind it. */
  lemma {:induction false} ReturnEndsLine(line: string, mark: string, rest: string)
    requires '\r' !in line && (mark == "\r\n" || (mark == "\r" && (rest == [] || rest[0] != '\n')))
    ensures FormValue(line + mark + rest) == line + "\n" + FormValue(rest)
  {
    hide FormValue;
    if line == [] {
      ReturnFirst(mark, rest);
      assert line + mark + rest == mark + rest;
      assert line + "\n" + FormValue(rest) == "\n" + FormValue(rest);
    } else {
      var c, tail := line[0], line[1..];
      assert line == [c] + tail;
      ReturnEndsLine(tail, mark, rest);
      KeptFirst(c, tail + mark + rest);
      assert line + mark + rest == [c] + (tail + mark + rest);
      assert line + "\n" + FormValue(rest) == [c] + (tail + "\n" + FormValue(rest));
    }
  }

  lemma KeptFirst(c: char, text: string)
    requires c != '\r'
    ensures FormValue([c] + text) == [c] + FormValue(text)
  {
    assert ([c] + text)[1..] == text;
  }

  lemma ReturnFirst(mark: string, rest: string)
    requires mark == "\r\n" || (mark == "\r" && (rest == [] || rest[0] != '\n'))
    ensures FormValue(mark + rest) == "\n" + FormValue(rest)
  {
    assert (mark + rest)[|mark|..] == rest;
  }

  /** How often the character occurs. */
  function Count(s: string, c: char): nat {
    if s == [] then 0 else Count(s[1..], c) + if s[0] == c then 1 else 0
  }

  lemma {:induction false} OnePartMore(s: string, sep: char)
    ensures |Split(s, sep)| == Count(s, sep) + 1
  {
    if s != [] {
      OnePartMore(s[1..], sep);
    }
  }

  /** A line is read as a stop only if it has two bars, ... */
  lemma OtherLinesAreRefused<T>(n: Numbers<T>, line: string, number: nat)
    requires Count(line, '|') != 2
    ensures ParseStop(n, line, number) == Bad(number, "expected \"Name | lat | lng\"")
  {
    hide Split, Trim;
    OnePartMore(line, '|');
  }

  /** ... a name before them that is not blank, and numbers after each of them: first the latitude. */
  lemma StopLineIsRead<T>(n: Numbers<T>, name: string, lat: string, lng: string, number: nat)
    requires Free(name, '|') && Free(lat, '|') && Free(lng, '|')
    ensures ParseStop(n, name + "|" + lat + "|" + lng, number) ==
            if Trim(name) == [] then Bad(number, "name is empty")
            else if !n.read(Trim(lat)) || !n.read(Trim(lng)) then Bad(number, "coordinates must be numbers")
            else Good([StopLine(Trim(name), n.value(Trim(lat)), n.value(Trim(lng)))])
  {
    hide Split, Trim;
    ThreeParts(name, lat, lng, '|');
    assert name + "|" + lat + "|" + lng == name + ['|'] + lat + ['|'] + lng;
  }

  lemma OtherPointsAreRefused<T>(n: Numbers<T>, line: string, number: nat)
    requires Count(line, ',') != 1
    ensures ParsePoint(n, line, number) == Bad(number, "expected \"lat, lng\"")
  {
    hide Split, Trim;
    OnePartMore(line, ',');
  }

  lemma PointLineIsRead<T>(n: Numbers<T>, lat: string, lng: string, number: nat)
    requires Free(lat, ',') && Free(lng, ',')
    ensures ParsePoint(n, lat + "," + lng, number) ==
            if !n.read(Trim(lat)) || !n.read(Trim(lng)) then Bad(number, "expected \"lat, lng\"")
            else Good([(n.value(Trim(lat)), n.value(Trim(lng)))])
  {
    hide Split, Trim;
    SplitAfter(lat, ',', lng);
    SplitFree(lng, ',');
    assert lat + "," + lng == lat + [','] + lng;
  }

  /** A text is refused for its first bad line, by that line's number, and otherwise read line by line. */
  lemma {:induction false} FirstBadLine<T>(n: Numbers<T>, lines: seq<string>, number: nat, i: nat)
    requires i <= |lines| && forall j :: 0 <= j < i ==> ParseStop(n, lines[j], number + j).Good?
    ensures i < |lines| && ParseStop(n, lines[i], number + i).Bad? ==>
              ParseStopLines(n, lines, number) == ParseStop(n, lines[i], number + i)
    ensures i == |lines| ==>
      var read := ParseStopLines(n, lines, number);
      && read.Good? && |read.value| == |lines|
      && forall j :: 0 <= j < |lines| ==> ParseStop(n, lines[j], number + j) == Good([read.value[j]])
  {
    hide ParseStop;
    if lines != [] && i > 0 {
      OneStop(n, lines[0], number);
      forall j | 0 <= j < i - 1
        ensures ParseStop(n, lines[1..][j], number + 1 + j).Good?
      {
        assert lines[1..][j] == lines[j + 1] && number + 1 + j == number + (j + 1);
      }
      FirstBadLine(n, lines[1..], number + 1, i - 1);
      if i == |lines| {
        var read := ParseStopLines(n, lines, number);
        forall j | 0 <= j < |lines|
          ensures ParseStop(n, lines[j], number + j) == Good([read.value[j]])
        {
          if j > 0 {
            assert lines[1..][j - 1] == lines[j] && number + 1 + (j - 1) == number + j;
          }
        }
      }
    }
  }

  lemma OneStop<T>(n: Numbers<T>, line: string, number: nat)
    ensures ParseStop(n, line, number).Good? ==> |ParseStop(n, line, number).value| == 1
  {
  }

  // ---- The round trip --------------------------------------------------------------------

  /** A name the form can carry: not empty, trimmed, on one line and without a bar. */
  predicate Carries(name: string) {
    name != [] && IsTrimmed(name) && '|' !in name && '\n' !in name && '\r' !in name
  }

  lemma WrittenNumber<T(!new)>(n: Numbers<T>, x: T) returns (s: string)
    requires WritesNumbers(n)
    ensures s == n.write(x) && n.read(s) && n.value(s) == x
    ensures s != [] && IsTrimmed(s) && Free(s, '|') && Free(s, ',') && Free(s, '\n') && Free(s, '\r')
  {
    s := n.write(x);
    assert IsNumberText(s) && IsBlank('\n') && IsBlank('\r');
  }

  lemma ThreeParts(a: string, b: string, c: string, sep: char)
    requires Free(a, sep) && Free(b, sep) && Free(c, sep)
    ensures Split(a + [sep] + b + [sep] + c, sep) == [a, b, c]
  {
    hide Split;
    SplitAfter(a, sep, b + [sep] + c);
    SplitAfter(b, sep, c);
    SplitFree(c, sep);
    assert a + [sep] + b + [sep] + c == a + [sep] + (b + [sep] + c);
  }

  lemma StopLineReadsBack<T(!new)>(n: Numbers<T>, s: StopLine<T>, number: nat)
    requires WritesNumbers(n) && Carries(s.name)
    ensures ParseStop(n, PrintStop(n, s), number) == Good([s])
    ensures Free(PrintStop(n, s), '\n') && Free(PrintStop(n, s), '\r')
    ensures Trim(PrintStop(n, s)) == PrintStop(n, s) != []
  {
    hide TrimLeft, TrimRight, Split, Trim, WritesNumbers;
    var lat := WrittenNumber(n, s.lat);
    var lng := WrittenNumber(n, s.lng);
    var line := PrintStop(n, s);
    var a, b, c := s.name + " ", " " + lat + " ", " " + lng;
    assert line == a + ['|'] + b + ['|'] + c;
    ThreeParts(a, b, c, '|');
    TrimPadded(s.name);
    TrimPadded(lat);
    TrimPadded(lng);
    assert line[0] == s.name[0] && line[|line| - 1] == lng[|lng| - 1];
    TrimPadded(line);
  }

  lemma {:induction false} StopLinesReadBack<T(!new)>(n: Numbers<T>, stops: seq<StopLine<T>>, number: nat)
    requires WritesNumbers(n) && forall s :: s in stops ==> Carries(s.name)
    ensures ParseStopLines(n, Lines(PrintStops(n, stops)), number) == Good(stops)
    ensures forall p :: p in PrintStops(n, stops) ==> Free(p, '\n') && Free(p, '\r')
  {
    hide ParseStop, PrintStop, Trim;
    if stops != [] {
      StopLineReadsBack(n, stops[0], number);
      StopLinesReadBack(n, stops[1..], number + 1);
      assert Lines(PrintStops(n, stops)) == [PrintStop(n, stops[0])] + Lines(PrintStops(n, stops[1..]));
    }
  }

  /** Whatever is read, its names are ones the form can carry, if the lines came out of a text. */
  lemma {:induction false} ReadNamesCarry<T(!new)>(n: Numbers<T>, lines: seq<string>, number: nat, s: StopLine<T>)
    requires forall l :: l in lines ==> Free(l, '\n') && Free(l, '\r')
    requires ParseStopLines(n, lines, number).Good? && s in ParseStopLines(n, lines, number).value
    ensures Carries(s.name)
  {
    if lines != [] {
      var first := ParseStop(n, lines[0], number);
      if s in first.value {
        ReadNameCarries(n, lines[0], number);
      } else {
        ReadNamesCarry(n, lines[1..], number + 1, s);
      }
    }
  }

  lemma ReadNameCarries<T(!new)>(n: Numbers<T>, line: string, number: nat)
    requires Free(line, '\n') && Free(line, '\r') && ParseStop(n, line, number).Good?
    ensures |ParseStop(n, line, number).value| == 1 && Carries(ParseStop(n, line, number).value[0].name)
  {
    hide Trim, IsTrimmed;
    var raw := Split(line, '|')[0];
    PartsAreFree(line, '|', raw);
    TrimIsTrimmed(raw);
  }

  lemma {:induction false} LinesAreFree(raw: seq<string>, l: string, c: char)
    requires (forall p :: p in raw ==> Free(p, c)) && l in Lines(raw)
    ensures Free(l, c)
  {
    hide Trim;
    if raw != [] {
      TrimIsTrimmed(raw[0]);
      assert Free(raw[0], c);
      if l in Lines(raw[1..]) {
        LinesAreFree(raw[1..], l, c);
      }
    }
  }

  lemma {:induction false} JoinFree(parts: seq<string>, sep: char, c: char)
    requires c != sep && forall p :: p in parts ==> Free(p, c)
    ensures Free(Join(parts, sep), c)
  {
    if |parts| > 1 {
      JoinFree(parts[1..], sep, c);
      assert Free(parts[0], c);
    }
  }

  /** Printing stops into the form and reading them back returns them exactly when the form can carry every name. */
  lemma StopsRoundTrip<T(!new)>(n: Numbers<T>, stops: seq<StopLine<T>>)
    requires WritesNumbers(n)
    ensures ParseStops(n, FormValue(StopsText(n, stops))) == Good(stops) <==> forall s :: s in stops ==> Carries(s.name)
  {
    hide Split, Lines, ParseStopLines, Carries, FormValue;
    var text := FormValue(StopsText(n, stops));
    if forall s :: s in stops ==> Carries(s.name) {
      if stops == [] {
        NoText(n);
      } else {
        StopLinesReadBack(n, stops, 1);
        JoinFree(PrintStops(n, stops), '\n', '\r');
        SplitJoin(PrintStops(n, stops), '\n');
      }
    }
    if ParseStops(n, text) == Good(stops) {
      forall l | l in Lines(Split(text, '\n'))
        ensures Free(l, '\n') && Free(l, '\r')
      {
        LinesOfText(text, l);
      }
      forall s | s in stops
        ensures Carries(s.name)
      {
        ReadNamesCarry(n, Lines(Split(text, '\n')), 1, s);
      }
    }
  }

  lemma LinesOfText(text: string, l: string)
    requires '\r' !in text && l in Lines(Split(text, '\n'))
    ensures Free(l, '\n') && Free(l, '\r')
  {
    hide Split, Lines;
    var raw := Split(text, '\n');
    forall p | p in raw
      ensures Free(p, '\n') && Free(p, '\r')
    {
      PartsAreFree(text, '\n', p);
    }
    LinesAreFree(raw, l, '\n');
    LinesAreFree(raw, l, '\r');
  }

  lemma NoText<T(!new)>(n: Numbers<T>)
    ensures ParseStops(n, FormValue(StopsText(n, []))) == Good([])
    ensures ParsePath(n, FormValue(PathText(n, []))) == Good([])
  {
    assert Split([], '\n') == [[]];
    assert Trim([]) == [];
    assert Lines([[]]) == [];
  }

  lemma PointReadsBack<T(!new)>(n: Numbers<T>, p: (T, T), number: nat)
    requires WritesNumbers(n)
    ensures ParsePoint(n, PrintPoint(n, p), number) == Good([p])
    ensures Free(PrintPoint(n, p), '\n') && Free(PrintPoint(n, p), '\r')
    ensures Trim(PrintPoint(n, p)) == PrintPoint(n, p) != []
  {
    hide TrimLeft, TrimRight, Split;
    var lat := WrittenNumber(n, p.0);
    var lng := WrittenNumber(n, p.1);
    var line := PrintPoint(n, p);
    assert line == lat + [','] + (" " + lng);
    SplitAfter(lat, ',', " " + lng);
    SplitFree(" " + lng, ',');
    assert Split(line, ',') == [lat, " " + lng];
    TrimPadded(lat);
    TrimPadded(lng);
    assert line[0] == lat[0] && line[|line| - 1] == lng[|lng| - 1];
    TrimPadded(line);
  }

  lemma {:induction false} PointsReadBack<T(!new)>(n: Numbers<T>, path: seq<(T, T)>, number: nat)
    requires WritesNumbers(n)
    ensures ParsePoints(n, Lines(PrintPoints(n, path)), number) == Good(path)
    ensures forall p :: p in PrintPoints(n, path) ==> Free(p, '\n') && Free(p, '\r')
  {
    hide ParsePoint, PrintPoint, Trim;
    if path != [] {
      PointReadsBack(n, path[0], number);
      PointsReadBack(n, path[1..], number + 1);
      assert Lines(PrintPoints(n, path)) == [PrintPoint(n, path[0])] + Lines(PrintPoints(n, path[1..]));
    }
  }

  /** A path always survives being printed and read back. */
  lemma PathRoundTrip<T(!new)>(n: Numbers<T>, path: seq<(T, T)>)
    requires WritesNumbers(n)
    ensures ParsePath(n, FormValue(PathText(n, path))) == Good(path)
  {
    hide Split, Lines, ParsePoints, FormValue;
    if path == [] {
      NoText(n);
    } else {
      PointsReadBack(n, path, 1);
      JoinFree(PrintPoints(n, path), '\n', '\r');
      SplitJoin(PrintPoints(n, path), '\n');
    }
  }

  lemma FourParts(a: string, b: string, c: string, d: string, sep: char)
    requires Free(a, sep) && Free(b, sep) && Free(c, sep) && Free(d, sep)
    ensures |Split(a + [sep] + b + [sep] + c + [sep] + d, sep)| == 4
  {
    hide Split;
    SplitAfter(a, sep, b + [sep] + c + [sep] + d);
    ThreeParts(b, c, d, sep);
    assert a + [sep] + b + [sep] + c + [sep] + d == a + [sep] + (b + [sep] + c + [sep] + d);
  }

  /** A name with a bar in it makes its line one part too long. */
  lemma BarIsRefused<T(!new)>(n: Numbers<T>, left: string, right: string, lat: T, lng: T)
    requires WritesNumbers(n) && left != [] && IsTrimmed(left)
    requires forall c :: c in left + right ==> c !in "|\n\r"
    ensures ParseStops(n, FormValue(StopsText(n, [StopLine(left + "|" + right, lat, lng)])))
            == Bad(1, "expected \"Name | lat | lng\"")
  {
    hide Split, Trim, FormValue, WritesNumbers;
    var x := WrittenNumber(n, lat);
    var y := WrittenNumber(n, lng);
    var stop := StopLine(left + "|" + right, lat, lng);
    var line := PrintStop(n, stop);
    assert '|' in "|\n\r" && '\n' in "|\n\r" && '\r' in "|\n\r";
    assert forall c :: c in left ==> c in left + right;
    assert forall c :: c in right ==> c in left + right;
    FourParts(left, right + " ", " " + x + " ", " " + y, '|');
    assert line == left + ['|'] + (right + " ") + ['|'] + (" " + x + " ") + ['|'] + (" " + y);
    assert line[0] == left[0] && line[|line| - 1] == y[|y| - 1];
    OneLine(n, stop, line);
  }

  lemma OneLine<T(!new)>(n: Numbers<T>, stop: StopLine<T>, line: string)
    requires line == PrintStop(n, stop) && line != [] && IsTrimmed(line) && Free(line, '\n') && Free(line, '\r')
    ensures Lines(Split(FormValue(StopsText(n, [stop])), '\n')) == [line]
  {
    hide Trim, Split, FormValue;
    assert StopsText(n, [stop]) == line;
    SplitFree(line, '\n');
    TrimPadded(line);
    assert Lines([line][1..]) == [];
  }
}
