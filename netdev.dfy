/**
 * The /proc/net/dev layer of main.c: get_net_devices_names (the text before
 * the ':' of every line that has one, counted in a first pass and copied into
 * an array in a second) and get_net_device_traffic (the 1st and 9th
 * white-space separated columns after the ':' of the device's line, read with
 * sscanf and converted with strtoull).
 */
module NetDev {
  import opened Options
  import opened Text
  import opened LineLocator

  /** unsigned long on a 64-bit Linux target. */
  const U64_MODULUS: nat := 0x1_0000_0000_0000_0000
  type U64 = x: int | 0 <= x < U64_MODULUS

  /** The received and transmitted byte counters of one device. */
  datatype Counters = Counters(rx: U64, tx: U64)

  // ---------------------------------------------------------------------------
  // get_net_devices_names
  // ---------------------------------------------------------------------------

  /** strsep(&line, ":") on a line holding a ':': the text before it, untrimmed. */
  function NameOf(line: string): (name: string)
    ensures ':' !in name && name <= line
    ensures ':' in line ==> line[|name|] == ':'
  {
    line[..FirstIndex(line, ':')]
  }

  /** What the counting pass counts: the lines that hold a ':'. */
  function CountLinesWithColon(lines: seq<string>): (n: nat)
    ensures n <= |lines|
  {
    if lines == [] then 0
    else CountLinesWithColon(lines[..|lines| - 1]) + (if ':' in lines[|lines| - 1] then 1 else 0)
  }

  /** The device names in file order: NameOf of every line that holds a ':'. */
  function DeviceNames(lines: seq<string>): (names: seq<string>)
    ensures |names| <= |lines|
    ensures forall k :: 0 <= k < |names| ==> ':' !in names[k]
  {
    if lines == [] then []
    else
      var last := lines[|lines| - 1];
      DeviceNames(lines[..|lines| - 1]) + (if ':' in last then [NameOf(last)] else [])
  }

  /** As many names as lines with a ':'. */
  lemma {:induction false} DeviceNamesCount(lines: seq<string>)
    ensures |DeviceNames(lines)| == CountLinesWithColon(lines)
  {
    if lines != [] {
      DeviceNamesCount(lines[..|lines| - 1]);
    }
  }

  /** Names keep file order: the names of a concatenation are concatenated. */
  lemma {:induction false} DeviceNamesAppend(a: seq<string>, b: seq<string>)
    ensures DeviceNames(a + b) == DeviceNames(a) + DeviceNames(b)
    decreases |b|
  {
    if b == [] {
      assert a + b == a;
    } else {
      var b' := b[..|b| - 1];
      assert (a + b)[..|a + b| - 1] == a + b';
      DeviceNamesAppend(a, b');
    }
  }

  /** A name is listed exactly when some line with a ':' carries it. */
  lemma DeviceNamesMember(lines: seq<string>, name: string)
    ensures name in DeviceNames(lines)
        <==> exists i :: 0 <= i < |lines| && ':' in lines[i] && NameOf(lines[i]) == name
  {
    if name in DeviceNames(lines) {
      var i := EnumeratedNameSource(lines, name);
    }
    if exists i :: 0 <= i < |lines| && ':' in lines[i] && NameOf(lines[i]) == name {
      var i :| 0 <= i < |lines| && ':' in lines[i] && NameOf(lines[i]) == name;
      NameIsEnumerated(lines, i);
    }
  }

  /** Every enumerated name is the name of some line holding a ':'. */
  lemma {:induction false} EnumeratedNameSource(lines: seq<string>, name: string) returns (i: nat)
    requires name in DeviceNames(lines)
    ensures i < |lines| && ':' in lines[i] && NameOf(lines[i]) == name
  {
    var n := |lines| - 1;
    var init := lines[..n];
    if name in DeviceNames(init) {
      i := EnumeratedNameSource(init, name);
      assert lines[i] == init[i];
    } else {
      i := n;
    }
  }

  /** The name of every line holding a ':' is enumerated. */
  lemma {:induction false} NameIsEnumerated(lines: seq<string>, i: nat)
    requires i < |lines| && ':' in lines[i]
    ensures NameOf(lines[i]) in DeviceNames(lines)
  {
    var n := |lines| - 1;
    var init := lines[..n];
    if i < n {
      NameIsEnumerated(init, i);
      assert init[i] == lines[i];
      assert DeviceNames(init) <= DeviceNames(lines);
    }
  }


  /**
   * get_net_devices_names: a pass that counts the lines holding a ':', an
   * array of that size, and a second pass that copies each such line's name
   * into it. The count goes out through length, the array through names.
   */
  method GetNetDevicesNames(lines: seq<string>) returns (names: array<string>, length: nat)
    ensures fresh(names)
    ensures length == names.Length == CountLinesWithColon(lines)
    ensures names[..] == DeviceNames(lines)
  {
    var idx := 0;
    var i := 0;
    while i < |lines|
      invariant 0 <= i <= |lines|
      invariant idx == CountLinesWithColon(lines[..i])
    {
      EnumerationStep(lines, i);
      var dots := FirstIndex(lines[i], ':');
      if dots < |lines[i]| {
        idx := idx + 1;
      }
      i := i + 1;
    }
    assert lines[..i] == lines;
    DeviceNamesCount(lines);
    names := new string[idx];
    length := idx;

    idx := 0;
    i := 0;
    while i < |lines|
      invariant 0 <= i <= |lines|
      invariant idx == |DeviceNames(lines[..i])| <= names.Length
      invariant names[..idx] == DeviceNames(lines[..i])
    {
      EnumerationStep(lines, i);
      var dots := FirstIndex(lines[i], ':');
      if dots < |lines[i]| {
        names[idx] := NameOf(lines[i]);
        idx := idx + 1;
      }
      i := i + 1;
    }
    assert lines[..i] == lines;
    assert names[..] == names[..idx];
  }

  /** One line more: both passes see the same line, and the names found so far never exceed the count. */
  lemma EnumerationStep(lines: seq<string>, i: nat)
    requires i < |lines|
    ensures CountLinesWithColon(lines[..i + 1]) == CountLinesWithColon(lines[..i]) + (if ':' in lines[i] then 1 else 0)
    ensures DeviceNames(lines[..i + 1]) == DeviceNames(lines[..i]) + (if ':' in lines[i] then [NameOf(lines[i])] else [])
    ensures |DeviceNames(lines[..i + 1])| <= CountLinesWithColon(lines)
  {
    assert lines[..i + 1][..i] == lines[..i];
    assert lines[..i + 1] + lines[i + 1..] == lines;
    DeviceNamesAppend(lines[..i + 1], lines[i + 1..]);
    DeviceNamesCount(lines);
  }

  // ---------------------------------------------------------------------------
  // Columns: what sscanf's %s conversions read
  // ---------------------------------------------------------------------------

  /** A %s token: one or more characters, none of them white space. */
  predicate IsToken(t: string) {
    t != [] && forall k :: 0 <= k < |t| ==> !IsSpace(t[k])
  }

  /** Length of the run of non-space characters that starts s. */
  function TokenLength(s: string): (n: nat)
    ensures n <= |s|
    ensures forall k :: 0 <= k < n ==> !IsSpace(s[k])
    ensures n < |s| ==> IsSpace(s[n])
  {
    if s == [] || IsSpace(s[0]) then 0 else 1 + TokenLength(s[1..])
  }

  /** The white-space separated tokens of s, in order, as successive %s read them. */
  function Fields(s: string): (fs: seq<string>)
    ensures forall k :: 0 <= k < |fs| ==> IsToken(fs[k])
    decreases |s|
  {
    if s == [] then []
    else if IsSpace(s[0]) then Fields(s[1..])
    else
      var n := TokenLength(s);
      [s[..n]] + Fields(s[n..])
  }

  /**
   * A row of columns: before each token its padding. Only the padding of the
   * first column may be empty, as after the ':' of /proc/net/dev.
   */
  function Columns(pads: seq<string>, tokens: seq<string>): string
    requires |pads| == |tokens|
  {
    if tokens == [] then [] else pads[0] + tokens[0] + Columns(pads[1..], tokens[1..])
  }

  predicate ValidPads(pads: seq<string>) {
    forall k :: 0 <= k < |pads| ==> AllSpace(pads[k]) && (k > 0 ==> pads[k] != [])
  }

  lemma {:induction false} FieldsSkipsSpaces(a: string, y: string)
    requires AllSpace(a)
    ensures Fields(a + y) == Fields(y)
    decreases |a|
  {
    if a != [] {
      assert (a + y)[1..] == a[1..] + y;
      FieldsSkipsSpaces(a[1..], y);
    } else {
      assert a + y == y;
    }
  }

  lemma {:induction false} TokenLengthOfToken(t: string, x: string)
    requires IsToken(t) && (x == [] || IsSpace(x[0]))
    ensures TokenLength(t + x) == |t|
    decreases |t|
  {
    assert (t + x)[0] == t[0];
    if |t| == 1 {
      assert (t + x)[1..] == x;
    } else {
      assert (t + x)[1..] == t[1..] + x;
      TokenLengthOfToken(t[1..], x);
    }
  }

  /** One token followed by white space (or nothing) is read as that token. */
  lemma FieldsOfToken(t: string, x: string)
    requires IsToken(t) && (x == [] || IsSpace(x[0]))
    ensures Fields(t + x) == [t] + Fields(x)
  {
    TokenLengthOfToken(t, x);
    assert (t + x)[0] == t[0];
    assert (t + x)[..|t|] == t && (t + x)[|t|..] == x;
  }

  /** Round trip: reading the tokens back from a row of columns gives the tokens. */
  lemma {:induction false} FieldsOfColumns(pads: seq<string>, tokens: seq<string>, tail: string)
    requires |pads| == |tokens| && ValidPads(pads)
    requires forall k :: 0 <= k < |tokens| ==> IsToken(tokens[k])
    requires tail == [] || IsSpace(tail[0])
    ensures Fields(Columns(pads, tokens) + tail) == tokens + Fields(tail)
    decreases |tokens|
  {
    if tokens == [] {
      assert Columns(pads, tokens) + tail == tail;
    } else {
      var x := Columns(pads[1..], tokens[1..]) + tail;
      ColumnsHead(pads, tokens, tail);
      NextColumnStartsWithSpace(pads, tokens, tail);
      FieldsOfPaddedToken(pads[0], tokens[0], x);
      assert ValidPads(pads[1..]);
      FieldsOfColumns(pads[1..], tokens[1..], tail);
      PrependToken(tokens, Fields(tail));
    }
  }

  /** One padded column: its padding is skipped and its token read whole. */
  lemma FieldsOfPaddedToken(pad: string, t: string, x: string)
    requires AllSpace(pad) && IsToken(t) && (x == [] || IsSpace(x[0]))
    ensures Fields(pad + (t + x)) == [t] + Fields(x)
  {
    FieldsSkipsSpaces(pad, t + x);
    FieldsOfToken(t, x);
  }

  lemma PrependToken(tokens: seq<string>, rest: seq<string>)
    requires tokens != []
    ensures [tokens[0]] + (tokens[1..] + rest) == tokens + rest
  {
    assert tokens == [tokens[0]] + tokens[1..];
  }

  lemma ColumnsHead(pads: seq<string>, tokens: seq<string>, tail: string)
    requires |pads| == |tokens| > 0
    ensures Columns(pads, tokens) + tail == pads[0] + (tokens[0] + (Columns(pads[1..], tokens[1..]) + tail))
  {
  }

  /** After a column comes white space (a later column's padding, or the tail's), or nothing. */
  lemma NextColumnStartsWithSpace(pads: seq<string>, tokens: seq<string>, tail: string)
    requires |pads| == |tokens| > 0 && ValidPads(pads)
    requires tail == [] || IsSpace(tail[0])
    ensures var x := Columns(pads[1..], tokens[1..]) + tail; x == [] || IsSpace(x[0])
  {
    if |tokens| > 1 {
      assert pads[1] != [] && IsSpace(pads[1][0]);
      assert Columns(pads[1..], tokens[1..]) == pads[1] + tokens[1] + Columns(pads[2..], tokens[2..]);
    } else {
      assert Columns(pads[1..], tokens[1..]) == [];
    }
  }


  // ---------------------------------------------------------------------------
  // strtoull on a counter token
  // ---------------------------------------------------------------------------

  predicate IsDigit(c: char) {
    '0' <= c <= '9'
  }

  predicate AllDigits(s: string) {
    forall k :: 0 <= k < |s| ==> IsDigit(s[k])
  }

  /** Length of the run of digits that starts s. */
  function DigitRun(s: string): (n: nat)
    ensures n <= |s| && AllDigits(s[..n])
    ensures n < |s| ==> !IsDigit(s[n])
  {
    if s == [] || !IsDigit(s[0]) then 0
    else
      var n := 1 + DigitRun(s[1..]);
      assert s[..n] == [s[0]] + s[1..][..n - 1];
      n
  }

  /** The number a string of decimal digits denotes. */
  function DecimalValue(ds: string): nat
    requires AllDigits(ds)
  {
    if ds == [] then 0
    else DecimalValue(ds[..|ds| - 1]) * 10 + (ds[|ds| - 1] as int - '0' as int)
  }

  /**
   * strtoull(token, NULL, 0) on a decimal token: the value of its leading
   * digits, or ULLONG_MAX when that value does not fit in 64 bits.
   */
  function ParseCounter(token: string): (v: U64)
    ensures token == [] || !IsDigit(token[0]) ==> v == 0
    ensures AllDigits(token) && DecimalValue(token) < U64_MODULUS ==> v == DecimalValue(token)
    ensures AllDigits(token) && DecimalValue(token) >= U64_MODULUS ==> v == U64_MODULUS - 1
  {
    var n := DigitRun(token);
    assert AllDigits(token) ==> n == |token| && token[..n] == token;
    var value := DecimalValue(token[..n]);
    if value < U64_MODULUS then value else U64_MODULUS - 1
  }

  /** How the kernel prints a counter (%llu): decimal, no leading zero. */
  function ShowDecimal(n: nat): (s: string)
    ensures s != [] && AllDigits(s)
    ensures |s| > 1 ==> s[0] != '0'
  {
    var last := ('0' as int + n % 10) as char;
    if n < 10 then [last] else ShowDecimal(n / 10) + [last]
  }

  lemma {:induction false} DecimalValueOfShow(n: nat)
    ensures DecimalValue(ShowDecimal(n)) == n
  {
    var s := ShowDecimal(n);
    if n >= 10 {
      DecimalValueOfShow(n / 10);
      assert s[..|s| - 1] == ShowDecimal(n / 10);
    }
  }

  /** Round trip: strtoull reads back every counter the kernel prints. */
  lemma ParseCounterOfShow(n: U64)
    ensures ParseCounter(ShowDecimal(n)) == n
  {
    var s := ShowDecimal(n);
    assert DigitRun(s) == |s|;
    assert s[..|s|] == s;
    DecimalValueOfShow(n);
  }

  // ---------------------------------------------------------------------------
  // get_net_device_traffic
  // ---------------------------------------------------------------------------

  /**
   * The sscanf/strtoull step on a located line: columns 1 (rx bytes) and 9
   * (tx bytes) after the first ':'. None when the line has no ':' (strchr
   * returns NULL) or fewer than 9 columns (the buffers sscanf leaves unset).
   */
  function ParseTrafficLine(line: string): (r: Option<Counters>)
    ensures r.Some? ==> ':' in line
  {
    var colon := FirstIndex(line, ':');
    if colon == |line| then None
    else
      var fs := Fields(line[colon + 1..]);
      if |fs| < 9 then None else Some(Counters(ParseCounter(fs[0]), ParseCounter(fs[8])))
  }

  /** A /proc/net/dev row: the name, a ':', the padded columns and a newline. */
  function TrafficRow(name: string, pads: seq<string>, tokens: seq<string>): string
    requires |pads| == |tokens|
  {
    name + ":" + Columns(pads, tokens) + "\n"
  }

  /** The line parser reads column 1 as rx and column 9 as tx, ignoring the rest. */
  lemma ParseTrafficRow(name: string, pads: seq<string>, tokens: seq<string>)
    requires ':' !in name && |pads| == |tokens| >= 9 && ValidPads(pads)
    requires forall k :: 0 <= k < |tokens| ==> IsToken(tokens[k])
    ensures ParseTrafficLine(TrafficRow(name, pads, tokens))
         == Some(Counters(ParseCounter(tokens[0]), ParseCounter(tokens[8])))
  {
    var row := TrafficRow(name, pads, tokens);
    var rest := Columns(pads, tokens) + "\n";
    assert row == name + [':'] + rest;
    StrsepJoin(name, ':', rest);
    assert FirstIndex(row, ':') == |name|;
    assert row[|name| + 1..] == rest;
    FieldsOfColumns(pads, tokens, "\n");
    assert Fields("\n") == [];
    assert tokens + [] == tokens;
  }

  /**
   * The line lookup as intended: the first line whose name field is name,
   * i.e. the first line starting with name followed by ':'.
   */
  lemma NameFieldMatch(line: string, name: string)
    requires ':' !in name
    ensures name + ":" <= line <==> ':' in line && NameOf(line) == name
  {
    if name + ":" <= line {
      assert line[|name|] == ':';
      assert line == name + [':'] + line[|name| + 1..];
      StrsepJoin(name, ':', line[|name| + 1..]);
    }
    if ':' in line && NameOf(line) == name {
      assert line[..|name| + 1] == name + ":";
    }
  }

  /**
   * get_net_device_traffic with the lookup as intended: the counters of the
   * first line whose name field is name. None where the source's assert
   * aborts (no such line) or its parse misbehaves (see ParseTrafficLine).
   */
  function NetDeviceTraffic(table: seq<string>, name: string): Option<Counters>
  {
    if table == [] then None
    else if name + ":" <= table[0] then ParseTrafficLine(table[0])
    else NetDeviceTraffic(table[1..], name)
  }

  /** The lookup parses the line get_line_with_prefix_from_file returns for name + ":". */
  lemma {:induction false} NetDeviceTrafficOfFirstLine(table: seq<string>, name: string)
    ensures NetDeviceTraffic(table, name) == match FirstLineWithPrefix(table, name + ":")
      case None => None
      case Some(line) => ParseTrafficLine(line)
  {
    if table != [] && !(name + ":" <= table[0]) {
      NetDeviceTrafficOfFirstLine(table[1..], name);
      assert FirstIndexWithPrefix(table, name + ":") == 1 + FirstIndexWithPrefix(table[1..], name + ":");
    }
  }

  /**
   * get_net_device_traffic as written (main.c:169): the line is located by
   * the bare device name as a prefix. It agrees with the intended lookup
   * whenever the first line starting with the name goes on with a ':'.
   */
  function NetDeviceTrafficAsWritten(table: seq<string>, name: string): (r: Option<Counters>)
    ensures FirstIndexWithPrefix(table, name) == FirstIndexWithPrefix(table, name + ":") ==> r == NetDeviceTraffic(table, name)
  {
    NetDeviceTrafficOfFirstLine(table, name);
    match FirstLineWithPrefix(table, name)
    case None => None
    case Some(line) => ParseTrafficLine(line)
  }

  /** Every enumerated device has a line the intended lookup finds, carrying its name. */
  lemma EnumeratedDeviceIsFound(table: seq<string>, name: string)
    requires name in DeviceNames(table)
    ensures FirstLineWithPrefix(table, name + ":").Some?
    ensures NameOf(FirstLineWithPrefix(table, name + ":").value) == name
  {
    DeviceNamesMember(table, name);
    var i :| 0 <= i < |table| && ':' in table[i] && NameOf(table[i]) == name;
    NameFieldMatch(table[i], name);
    var k := FirstIndexWithPrefix(table, name + ":");
    NameFieldMatch(table[k], name);
  }

  /**
   * The device's counters are those of the first row carrying its name,
   * whatever rows with other names come before it.
   */
  lemma NetDeviceTrafficOfRow(table: seq<string>, i: nat, name: string, pads: seq<string>, tokens: seq<string>)
    requires ':' !in name && |pads| == |tokens| >= 9 && ValidPads(pads)
    requires forall k :: 0 <= k < |tokens| ==> IsToken(tokens[k])
    requires i < |table| && table[i] == TrafficRow(name, pads, tokens)
    requires forall j :: 0 <= j < i ==> !(':' in table[j] && NameOf(table[j]) == name)
    ensures NetDeviceTraffic(table, name) == Some(Counters(ParseCounter(tokens[0]), ParseCounter(tokens[8])))
  {
    assert table[i] == name + ":" + (Columns(pads, tokens) + "\n");
    forall j | 0 <= j < i
      ensures !(name + ":" <= table[j])
    {
      NameFieldMatch(table[j], name);
    }
    FirstLineWithPrefixIsFirst(table, name + ":", i);
    NetDeviceTrafficOfFirstLine(table, name);
    ParseTrafficRow(name, pads, tokens);
  }

  /**
   * The lookup as written (main.c:169) matches the bare name as a prefix: a
   * device whose name starts another device's name reads the other device's
   * line when that line comes first. The intended lookup reads its own.
   */
  lemma PrefixLookupReadsOtherDevice()
    ensures FirstLineWithPrefix(["enp0s31f6: 5\n", "enp0s3: 7\n"], "enp0s3") == Some("enp0s31f6: 5\n")
    ensures NameOf("enp0s31f6: 5\n") != "enp0s3"
    ensures FirstLineWithPrefix(["enp0s31f6: 5\n", "enp0s3: 7\n"], "enp0s3" + ":") == Some("enp0s3: 7\n")
  {
    var table := ["enp0s31f6: 5\n", "enp0s3: 7\n"];
    assert "enp0s3" <= table[0];
    assert table[0][6] != ':';
    assert table[1][..7] == "enp0s3:";
    FirstLineWithPrefixIsFirst(table, "enp0s3" + ":", 1);
  }

  /**
   * The same shadowing on full rows: with an enp0s31f6 row, of any nine or
   * more columns, before the enp0s3 row, the bare-name lookup for enp0s3
   * returns enp0s31f6's counters, which enp0s31f6's own lookup also returns,
   * while the lookup by "enp0s3:" returns enp0s3's own counters.
   */
  lemma PrefixLookupReadsOtherCounters(pads: seq<string>, a: seq<string>, b: seq<string>)
    requires |pads| == |a| == |b| >= 9 && ValidPads(pads)
    requires forall k :: 0 <= k < |a| ==> IsToken(a[k])
    requires forall k :: 0 <= k < |b| ==> IsToken(b[k])
    requires ParseCounter(a[0]) != ParseCounter(b[0])
    ensures NetDeviceTrafficAsWritten([TrafficRow("enp0s31f6", pads, a), TrafficRow("enp0s3", pads, b)], "enp0s3")
         == Some(Counters(ParseCounter(a[0]), ParseCounter(a[8])))
    ensures NetDeviceTrafficAsWritten([TrafficRow("enp0s31f6", pads, a), TrafficRow("enp0s3", pads, b)], "enp0s31f6")
         == Some(Counters(ParseCounter(a[0]), ParseCounter(a[8])))
    ensures NetDeviceTraffic([TrafficRow("enp0s31f6", pads, a), TrafficRow("enp0s3", pads, b)], "enp0s3")
         == Some(Counters(ParseCounter(b[0]), ParseCounter(b[8])))
    ensures NetDeviceTrafficAsWritten([TrafficRow("enp0s31f6", pads, a), TrafficRow("enp0s3", pads, b)], "enp0s3")
         != NetDeviceTraffic([TrafficRow("enp0s31f6", pads, a), TrafficRow("enp0s3", pads, b)], "enp0s3")
  {
    var table := [TrafficRow("enp0s31f6", pads, a), TrafficRow("enp0s3", pads, b)];
    var rest := Columns(pads, a) + "\n";
    assert table[0] == "enp0s3" + ("1f6:" + rest);
    assert table[0] == "enp0s31f6" + ":" + rest;
    assert table[0][6] != ':';
    FirstLineWithPrefixIsFirst(table, "enp0s3", 0);
    FirstLineWithPrefixIsFirst(table, "enp0s31f6", 0);
    ParseTrafficRow("enp0s31f6", pads, a);
    NameFieldMatch(table[0], "enp0s3");
    NetDeviceTrafficOfRow(table, 1, "enp0s3", pads, b);
  }
}
