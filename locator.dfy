/**
 * get_line_with_prefix_from_file: the first line of a file that starts with
 * a given prefix. The file is given as its sequence of lines, each as getline
 * returns it (with its newline, if any).
 */
module LineLocator {
  import opened Options
  import opened Text

  /** Index of the first line starting with prefix, or |lines| when none does. */
  function FirstIndexWithPrefix(lines: seq<string>, prefix: string): (i: nat)
    ensures i <= |lines|
    ensures forall j :: 0 <= j < i ==> !(prefix <= lines[j])
    ensures i < |lines| ==> prefix <= lines[i]
  {
    if lines == [] then 0
    else if prefix <= lines[0] then 0
    else 1 + FirstIndexWithPrefix(lines[1..], prefix)
  }

  /** The line get_line_with_prefix_from_file returns; None is its NULL. */
  function FirstLineWithPrefix(lines: seq<string>, prefix: string): (r: Option<string>)
    ensures r.Some? ==> r.value in lines && prefix <= r.value
  {
    var i := FirstIndexWithPrefix(lines, prefix);
    if i < |lines| then Some(lines[i]) else None
  }

  /**
   * The first line, in file order, on which the prefix matches at column 0;
   * NULL exactly when no line matches.
   */
  lemma FirstLineWithPrefixIsFirst(lines: seq<string>, prefix: string, i: nat)
    requires i < |lines| && prefix <= lines[i]
    requires forall j :: 0 <= j < i ==> !(prefix <= lines[j])
    ensures FirstLineWithPrefix(lines, prefix) == Some(lines[i])
  {
    var k := FirstIndexWithPrefix(lines, prefix);
    assert !(k < i);
  }

  lemma FirstLineWithPrefixNone(lines: seq<string>, prefix: string)
    ensures FirstLineWithPrefix(lines, prefix) == None
        <==> forall j :: 0 <= j < |lines| ==> !(prefix <= lines[j])
  {
  }

  /** An empty prefix matches the first line of any non-empty file. */
  lemma EmptyPrefixMatchesFirstLine(lines: seq<string>)
    requires lines != []
    ensures FirstLineWithPrefix(lines, "") == Some(lines[0])
  {
  }

  /** The getline loop with its found flag, breaking at the first match. */
  method GetLineWithPrefix(lines: seq<string>, prefix: string) returns (line: Option<string>)
    ensures line.Some? <==> exists j :: 0 <= j < |lines| && prefix <= lines[j]
    ensures line == FirstLineWithPrefix(lines, prefix)
  {
    var found := false;
    var i := 0;
    while i < |lines|
      invariant 0 <= i <= |lines| && !found
      invariant forall j :: 0 <= j < i ==> !(prefix <= lines[j])
    {
      var matches := IsStartsWith(lines[i], prefix);
      if matches {
        found := true;
        break;
      }
      i := i + 1;
    }
    if found {
      FirstLineWithPrefixIsFirst(lines, prefix, i);
      line := Some(lines[i]);
    } else {
      line := None;
    }
  }
}
