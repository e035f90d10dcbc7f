/**
 * get_motherboad_name: the board vendor and the board name, each read whole
 * from its DMI file (board_vendor, board_name), trimmed, and joined with one
 * space. A file is given as its content, None when it cannot be opened.
 */
module Motherboard {
  import opened Options
  import opened Text

  /**
   * file_read_as_string: NULL when the file cannot be opened or is empty,
   * otherwise its whole content.
   */
  function FileReadAsString(file: Option<string>): (r: Option<string>)
    ensures r.Some? <==> file.Some? && file.value != []
    ensures r.Some? ==> r.value == file.value
  {
    match file
    case None => None
    case Some(content) => if |content| == 0 then None else Some(content)
  }

  /**
   * The motherboard model: NULL when either file is missing or empty,
   * otherwise the trimmed vendor, a space and the trimmed board name, in a
   * buffer of exactly strlen(vendor_trimmed) + strlen(name_trimmed) + 2 bytes.
   */
  function MotherboardName(vendorFile: Option<string>, nameFile: Option<string>): (r: Option<string>)
    ensures r.Some? <==> FileReadAsString(vendorFile).Some? && FileReadAsString(nameFile).Some?
    ensures r.Some? ==> |r.value| == |Trim(vendorFile.value)| + 1 + |Trim(nameFile.value)|
    ensures r.Some? ==> ' ' in r.value
  {
    match (FileReadAsString(vendorFile), FileReadAsString(nameFile))
    case (Some(vendor), Some(name)) =>
      var joined := Trim(vendor) + " " + Trim(name);
      assert joined[|Trim(vendor)|] == ' ';
      Some(joined)
    case _ => None
  }

  /**
   * Round trip: a vendor without inner spaces is recovered, trimmed, by
   * splitting the model at its first space; the rest is the trimmed name.
   */
  lemma MotherboardNameSplits(vendor: string, name: string)
    requires vendor != [] && name != []
    requires ' ' !in Trim(vendor)
    ensures MotherboardName(Some(vendor), Some(name)).Some?
    ensures Strsep(MotherboardName(Some(vendor), Some(name)), ' ') == (Some(Trim(vendor)), Some(Trim(name)))
  {
    assert Trim(vendor) + " " + Trim(name) == Trim(vendor) + [' '] + Trim(name);
    StrsepJoin(Trim(vendor), ' ', Trim(name));
  }

  /**
   * The DMI files end in a newline: values padded with white space give the
   * bare values joined by a single space.
   */
  lemma MotherboardNameOfPadded(a: string, v: string, b: string, c: string, n: string, d: string)
    requires AllSpace(a) && AllSpace(b) && AllSpace(c) && AllSpace(d)
    requires Trimmed(v) && Trimmed(n) && v != [] && n != []
    ensures MotherboardName(Some(a + v + b), Some(c + n + d)) == Some(v + " " + n)
  {
    assert (a + v + b) != [] && (c + n + d) != [];
    TrimPadded(a, v, b);
    TrimPadded(c, n, d);
  }

  /** An unreadable or empty board file leaves the model unknown (NULL). */
  lemma MotherboardNameMissingFile(vendorFile: Option<string>, nameFile: Option<string>)
    requires vendorFile == None || vendorFile == Some([]) || nameFile == None || nameFile == Some([])
    ensures MotherboardName(vendorFile, nameFile) == None
  {
  }

  /** "ASUSTeK COMPUTER INC.\n" and "PRIME B450M-A\n" give "ASUSTeK COMPUTER INC. PRIME B450M-A". */
  lemma MotherboardNameExample()
    ensures MotherboardName(Some("ASUSTeK COMPUTER INC." + "\n"), Some("PRIME B450M-A" + "\n"))
         == Some("ASUSTeK COMPUTER INC." + " " + "PRIME B450M-A")
  {
    var v, n := "ASUSTeK COMPUTER INC.", "PRIME B450M-A";
    assert v + "\n" == [] + v + "\n";
    assert n + "\n" == [] + n + "\n";
    assert AllSpace("\n");
    MotherboardNameOfPadded([], v, "\n", [], n, "\n");
  }
}
