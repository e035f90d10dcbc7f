/**
 * The field extractors of main.c: get_cpu_name (/proc/cpuinfo, "model name",
 * split on ':') and get_pretty_release_name (/etc/os-release, "PRETTY_NAME",
 * split on '='), and the stripping of the quotes around the release name that
 * main performs before printing it.
 */
module FieldExtractors {
  import opened Options
  import opened Text
  import opened LineLocator

  /**
   * The two strsep calls and the trim: skip the label up to the first d, take
   * the token up to the next d (or the end), trim it. When the line holds no d
   * the second strsep returns NULL and the source passes it to strdup; that
   * is None here.
   */
  function ExtractField(line: string, d: char): (r: Option<string>)
    ensures r.Some? <==> d in line
    ensures r.Some? ==> d !in r.value && Trimmed(r.value)
  {
    var (_, rest) := Strsep(Some(line), d);
    var (token, _) := Strsep(rest, d);
    match token
    case None => None
    case Some(t) =>
      TrimKeepsAbsent(t, d);
      Some(Trim(t))
  }

  /**
   * Round trip: "key<d>value" with the value running to the end of the line
   * or to the next d yields the value trimmed, whatever the label says.
   */
  lemma ExtractFieldOfJoin(key: string, d: char, value: string, tail: string)
    requires d !in key && d !in value
    requires tail == [] || tail[0] == d
    ensures ExtractField(key + [d] + value + tail, d) == Some(Trim(value))
  {
    assert key + [d] + value + tail == key + [d] + (value + tail);
    StrsepJoin(key, d, value + tail);
    if tail == [] {
      assert value + tail == value;
      assert FirstIndex(value, d) == |value|;
    } else {
      assert value + tail == value + [d] + tail[1..];
      StrsepJoin(value, d, tail[1..]);
    }
  }

  /** Every value the extractor returns comes from some "key<d>value" split. */
  lemma ExtractFieldSplits(line: string, d: char) returns (key: string, value: string, tail: string)
    requires d in line
    ensures d !in key && d !in value && (tail == [] || tail[0] == d)
    ensures line == key + [d] + value + tail
    ensures ExtractField(line, d) == Some(Trim(value))
  {
    var i := FirstIndex(line, d);
    key := line[..i];
    var rest := line[i + 1..];
    var j := FirstIndex(rest, d);
    value, tail := rest[..j], rest[j..];
    SplitAt(line, i);
    assert rest == value + tail;
    Regroup(key, [d], value, tail);
    ExtractFieldOfJoin(key, d, value, tail);
  }

  /** get_cpu_name: the value of the first "model name" line of /proc/cpuinfo. */
  function CpuName(cpuinfo: seq<string>): (r: Option<string>)
    ensures r.Some? ==> ':' !in r.value && Trimmed(r.value)
    ensures r.Some? <==> exists i ::
      0 <= i < |cpuinfo| && FirstLineWithPrefix(cpuinfo, "model name") == Some(cpuinfo[i]) && ':' in cpuinfo[i]
  {
    match FirstLineWithPrefix(cpuinfo, "model name")
    case None => None
    case Some(line) => ExtractField(line, ':')
  }

  /** get_pretty_release_name: the value of the first "PRETTY_NAME" line of /etc/os-release. */
  function PrettyReleaseName(osRelease: seq<string>): (r: Option<string>)
    ensures r.Some? ==> '=' !in r.value && Trimmed(r.value)
    ensures r.Some? <==> exists i ::
      0 <= i < |osRelease| && FirstLineWithPrefix(osRelease, "PRETTY_NAME") == Some(osRelease[i]) && '=' in osRelease[i]
  {
    match FirstLineWithPrefix(osRelease, "PRETTY_NAME")
    case None => None
    case Some(line) => ExtractField(line, '=')
  }

  /**
   * The quote stripping at main.c:282-283 as written: move past the first '"'
   * and cut at the next one. None stands for the NULL that strchr returns
   * when either quote is missing, which the code then dereferences.
   */
  function StripQuotesAsWritten(s: string): (r: Option<string>)
    ensures r.Some? ==> '"' !in r.value
    ensures r.Some? <==> '"' in s && '"' in s[FirstIndex(s, '"') + 1..]
  {
    var openAt := FirstIndex(s, '"');
    if openAt == |s| then None
    else
      var rest := s[openAt + 1..];
      var close := FirstIndex(rest, '"');
      if close == |rest| then None else Some(rest[..close])
  }

  /** The text strictly between the first quote and the next one is the result. */
  lemma StripQuotesOfQuoted(a: string, v: string, b: string)
    requires '"' !in a && '"' !in v
    ensures StripQuotesAsWritten(a + "\"" + v + "\"" + b) == Some(v)
  {
    var s := a + "\"" + v + "\"" + b;
    assert s == a + ['"'] + (v + ['"'] + b);
    StrsepJoin(a, '"', v + ['"'] + b);
    StrsepJoin(v, '"', b);
  }

  /**
   * The quote stripping as intended: an unquoted value is kept as it is, a
   * quoted one loses its quotes, and a lone quote is a malformed value (None).
   */
  function Unquote(s: string): (r: Option<string>)
    ensures r.Some? ==> '"' !in r.value
    ensures '"' !in s ==> r == Some(s)
    ensures '"' in s ==> r == StripQuotesAsWritten(s)
  {
    if '"' in s then StripQuotesAsWritten(s) else Some(s)
  }

  /** Unquoting adds no character: one absent from s is absent from the result. */
  lemma UnquoteKeepsAbsent(s: string, c: char)
    requires c !in s
    ensures Unquote(s).Some? ==> c !in Unquote(s).value
  {
    if '"' in s && Unquote(s).Some? {
      var openAt := FirstIndex(s, '"');
      var rest := s[openAt + 1..];
      var v := rest[..FirstIndex(rest, '"')];
      assert Unquote(s).value == v;
      assert forall k :: 0 <= k < |v| ==> v[k] == s[openAt + 1 + k];
    }
  }

  /** Unquoting an already unquoted value changes nothing. */
  lemma UnquoteIdempotent(s: string, v: string)
    requires Unquote(s) == Some(v)
    ensures Unquote(v) == Some(v)
  {
  }

  /**
   * os-release allows an unquoted value: the code as written dereferences
   * NULL on it, where the intended stripping leaves it unchanged.
   */
  lemma UnquotedReleaseNameCrashes()
    ensures StripQuotesAsWritten("Debian") == None
    ensures Unquote("Debian") == Some("Debian")
  {
    assert '"' !in "Debian";
  }

  /** The release label main prints: the PRETTY_NAME value without its quotes. */
  function ReleaseLabel(osRelease: seq<string>): (r: Option<string>)
    ensures r.Some? ==> '"' !in r.value && '=' !in r.value
    ensures r.Some? ==> PrettyReleaseName(osRelease).Some?
  {
    match PrettyReleaseName(osRelease)
    case None => None
    case Some(name) =>
      UnquoteKeepsAbsent(name, '=');
      Unquote(name)
  }

  /** A field "<key><d> <value>\n" whose value is already trimmed extracts to the value. */
  lemma ExtractPaddedField(key: string, d: char, pad: string, value: string)
    requires d !in key && d !in value && Trimmed(value) && AllSpace(pad) && !IsSpace(d)
    ensures ExtractField(key + [d] + pad + value + "\n", d) == Some(value)
  {
    DelimiterNotInPadded(d, pad, value);
    JoinField(key, d, pad, value);
    ExtractFieldOfLastField(key, d, pad + value + "\n");
    TrimOfPaddedLine(pad, value);
  }

  /** The value running to the end of the line is extracted trimmed. */
  lemma ExtractFieldOfLastField(key: string, d: char, value: string)
    requires d !in key && d !in value
    ensures ExtractField(key + [d] + value, d) == Some(Trim(value))
  {
    assert key + [d] + value == key + [d] + value + [];
    ExtractFieldOfJoin(key, d, value, []);
  }

  lemma DelimiterNotInPadded(d: char, pad: string, value: string)
    requires d !in value && AllSpace(pad) && !IsSpace(d)
    ensures d !in pad + value + "\n"
  {
    assert forall k :: 0 <= k < |pad| ==> pad[k] != d;
  }

  lemma JoinField(key: string, d: char, pad: string, value: string)
    ensures key + [d] + pad + value + "\n" == key + [d] + (pad + value + "\n")
  {
  }

  /** /proc/cpuinfo: "model name\t: Intel(R) Core(TM) i7" yields the bare model name. */
  lemma CpuNameExample()
    ensures CpuName(["processor\t: 0\n", "model name\t" + ": " + "Intel(R) Core(TM) i7" + "\n"])
         == Some("Intel(R) Core(TM) i7")
  {
    var model := "Intel(R) Core(TM) i7";
    var line := "model name\t" + ": " + model + "\n";
    var lines := ["processor\t: 0\n", line];
    assert lines[0][0] != "model name"[0];
    assert line[..10] == "model name";
    FirstLineWithPrefixIsFirst(lines, "model name", 1);
    assert line == "model name\t" + [':'] + " " + model + "\n";
    ExtractPaddedField("model name\t", ':', " ", model);
  }

  /** /etc/os-release: PRETTY_NAME="Arch Linux" yields the name without quotes. */
  lemma ReleaseLabelExample()
    ensures ReleaseLabel(["NAME=\"Arch Linux\"\n", "PRETTY_NAME=" + "\"" + "Arch Linux" + "\"" + "\n"])
         == Some("Arch Linux")
  {
    var name := "Arch Linux";
    var quoted := "\"" + name + "\"";
    var lines := ["NAME=\"Arch Linux\"\n", "PRETTY_NAME=" + "\"" + name + "\"" + "\n"];
    assert lines[0][0] != "PRETTY_NAME"[0];
    assert lines[1] == "PRETTY_NAME=" + quoted + "\n";
    assert quoted[0] == '"' && quoted[|quoted| - 1] == '"';
    assert '"' !in name && '=' !in name;
    assert '=' !in quoted;
    PrettyReleaseNameOfLine(lines, 1, quoted);
    UnquoteQuoted(name);
  }

  /** A quoted PRETTY_NAME value is printed without its quotes. */
  lemma UnquoteQuoted(name: string)
    requires '"' !in name
    ensures Unquote("\"" + name + "\"") == Some(name)
  {
    assert "\"" + name + "\"" == [] + "\"" + name + "\"" + [];
    StripQuotesOfQuoted([], name, []);
    assert ("\"" + name + "\"")[0] == '"';
  }

  /** The first PRETTY_NAME line with an already trimmed value gives that value. */
  lemma PrettyReleaseNameOfLine(lines: seq<string>, i: nat, value: string)
    requires i < |lines| && lines[i] == "PRETTY_NAME=" + value + "\n"
    requires forall j :: 0 <= j < i ==> !("PRETTY_NAME" <= lines[j])
    requires '=' !in value && Trimmed(value)
    ensures PrettyReleaseName(lines) == Some(value)
  {
    assert lines[i][..11] == "PRETTY_NAME";
    FirstLineWithPrefixIsFirst(lines, "PRETTY_NAME", i);
    assert lines[i] == "PRETTY_NAME" + ['='] + [] + value + "\n";
    ExtractPaddedField("PRETTY_NAME", '=', [], value);
  }
}
