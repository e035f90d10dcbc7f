/**
 * The text helpers of main.c: white-space trimming (trim), prefix testing
 * (is_starts_with) and the two C library searches the parsers lean on,
 * strchr and strsep.
 *
 * A C string is modelled by the characters before its terminating NUL.
 */
module Text {
  import opened Options

  /** isspace in the "C" locale: space, \t, \n, \v, \f and \r. */
  predicate IsSpace(c: char) {
    c == ' ' || c == '\t' || c == '\n' || c == '\U{000B}' || c == '\U{000C}' || c == '\r'
  }

  predicate AllSpace(s: string) {
    forall k :: 0 <= k < |s| ==> IsSpace(s[k])
  }

  /** Neither end of s is white space (the empty string qualifies). */
  predicate Trimmed(s: string) {
    s == [] || (!IsSpace(s[0]) && !IsSpace(s[|s| - 1]))
  }

  // ---------------------------------------------------------------------------
  // trim
  // ---------------------------------------------------------------------------

  /** s with its trailing white space removed: what the backward walk keeps. */
  function TrimRight(s: string): (r: string)
    ensures r <= s
    ensures r == [] || !IsSpace(r[|r| - 1])
    ensures AllSpace(s[|r|..])
  {
    if s != [] && IsSpace(s[|s| - 1]) then TrimRight(s[..|s| - 1]) else s
  }

  /** s with its leading white space removed: what the forward walk keeps. */
  function TrimLeft(s: string): (r: string)
    ensures |r| <= |s| && r == s[|s| - |r|..]
    ensures r == [] || !IsSpace(r[0])
    ensures AllSpace(s[..|s| - |r|])
  {
    if s != [] && IsSpace(s[0]) then
      var r := TrimLeft(s[1..]);
      TrimLeftStep(s, r);
      r
    else s
  }

  /** One more leading space: the kept suffix and the blank head carry over. */
  lemma TrimLeftStep(s: string, r: string)
    requires s != [] && IsSpace(s[0])
    requires |r| <= |s| - 1 && r == s[1..][|s| - 1 - |r|..]
    requires AllSpace(s[1..][..|s| - 1 - |r|])
    ensures r == s[|s| - |r|..]
    ensures AllSpace(s[..|s| - |r|])
  {
    assert forall k :: 1 <= k < |s| - |r| ==> s[k] == s[1..][k - 1];
  }

  /**
   * trim: the trailing white space goes first, then the leading white space.
   * This is the corrected trim: a blank string yields "" (see TrimAsWritten).
   */
  function Trim(s: string): (r: string)
    ensures Trimmed(r)
    ensures r == [] <==> AllSpace(s)
  {
    var right := TrimRight(s);
    assert right != [] ==> right[|right| - 1] == s[|right| - 1];
    assert right == [] ==> s[|right|..] == s;
    var r := TrimLeft(right);
    assert r == [] ==> right[..|right| - |r|] == right;
    r
  }

  lemma {:induction false} TrimRightOfSpaces(x: string, b: string)
    requires AllSpace(b)
    ensures TrimRight(x + b) == TrimRight(x)
    decreases |b|
  {
    if b != [] {
      assert (x + b)[..|x + b| - 1] == x + b[..|b| - 1];
      TrimRightOfSpaces(x, b[..|b| - 1]);
    } else {
      assert x + b == x;
    }
  }

  lemma {:induction false} TrimLeftOfSpaces(a: string, y: string)
    requires AllSpace(a)
    ensures TrimLeft(a + y) == TrimLeft(y)
    decreases |a|
  {
    if a != [] {
      assert (a + y)[1..] == a[1..] + y;
      TrimLeftOfSpaces(a[1..], y);
    } else {
      assert a + y == y;
    }
  }

  /**
   * Round trip: a trimmed value padded on both sides with any white space
   * trims back to itself. With Trim's own contract this pins Trim down: the
   * result is the one Trimmed core of s between two blank margins.
   */
  lemma TrimPadded(a: string, v: string, b: string)
    requires AllSpace(a) && AllSpace(b) && Trimmed(v)
    ensures Trim(a + v + b) == v
  {
    TrimRightOfSpaces(a + v, b);
    if v == [] {
      assert a + v == [] + a;
      TrimRightOfSpaces([], a);
    } else {
      TrimLeftOfSpaces(a, v);
    }
  }

  /** A line whose value follows some white space and ends in its newline trims to the value. */
  lemma TrimOfPaddedLine(pad: string, value: string)
    requires AllSpace(pad) && Trimmed(value)
    ensures Trim(pad + value + "\n") == value
  {
    assert AllSpace("\n");
    TrimPadded(pad, value, "\n");
  }

  /** The converse: Trim(s) is a slice of s with only white space around it. */
  lemma TrimIsCore(s: string) returns (i: nat)
    ensures i + |Trim(s)| <= |s|
    ensures Trim(s) == s[i..i + |Trim(s)|]
    ensures AllSpace(s[..i]) && AllSpace(s[i + |Trim(s)|..])
  {
    var right := TrimRight(s);
    var r := TrimLeft(right);
    assert Trim(s) == r;
    i := |right| - |r|;
    CoreOfMargins(s, right, r);
  }

  /** A suffix r of a prefix right of s, cut off by blank margins, is s's core. */
  lemma CoreOfMargins(s: string, right: string, r: string)
    requires right <= s && AllSpace(s[|right|..])
    requires |r| <= |right| && r == right[|right| - |r|..]
    requires AllSpace(right[..|right| - |r|])
    ensures s[|right| - |r|..|right|] == r
    ensures AllSpace(s[..|right| - |r|])
  {
    assert s[..|right| - |r|] == right[..|right| - |r|];
    assert s[|right| - |r|..|right|] == right[|right| - |r|..];
  }

  /** Trimming adds no character: one absent from s is absent from Trim(s). */
  lemma TrimKeepsAbsent(s: string, c: char)
    requires c !in s
    ensures c !in Trim(s)
  {
    var i := TrimIsCore(s);
    assert forall k :: 0 <= k < |Trim(s)| ==> Trim(s)[k] == s[i + k];
  }

  lemma TrimIdempotent(s: string)
    ensures Trim(Trim(s)) == Trim(s)
  {
    TrimPadded([], Trim(s), []);
    assert [] + Trim(s) + [] == Trim(s);
  }

  /**
   * trim as a C loop over an offset and a length: the backward walk from the
   * end, then the forward walk from the start, then strndup(str, len). Both
   * walks are bounded by len here, which the code at main.c:23-24 omits.
   */
  method TrimWalk(s: string) returns (r: string)
    ensures r == Trim(s)
  {
    var len := |s|;
    while len > 0 && IsSpace(s[len - 1])
      invariant 0 <= len <= |s|
      invariant AllSpace(s[len..])
    {
      assert s[len - 1..] == [s[len - 1]] + s[len..];
      len := len - 1;
    }
    ghost var end := len;
    TrimRightSkips(s, end);
    var str := 0;
    while len > 0 && IsSpace(s[str])
      invariant 0 <= str && 0 <= len && str + len == end <= |s|
      invariant AllSpace(s[..str])
    {
      assert s[..str + 1] == s[..str] + [s[str]];
      str, len := str + 1, len - 1;
    }
    TrimLeftSkips(s[..end], str);
    assert s[..end][str..] == s[str..str + len];
    r := s[str..str + len];
  }

  /** Dropping a blank tail that starts after a non-space is what TrimRight does. */
  lemma {:induction false} TrimRightSkips(t: string, len: nat)
    requires len <= |t| && AllSpace(t[len..])
    requires 0 < len ==> !IsSpace(t[len - 1])
    ensures TrimRight(t) == t[..len]
    decreases |t|
  {
    if len < |t| {
      assert IsSpace(t[len..][|t| - 1 - len]);
      assert t[..|t| - 1][len..] == t[len..][..|t| - 1 - len];
      TrimRightSkips(t[..|t| - 1], len);
      assert t[..|t| - 1][..len] == t[..len];
    } else {
      assert t[..len] == t;
    }
  }

  /** Skipping a blank head that ends at a non-space is what TrimLeft does. */
  lemma {:induction false} TrimLeftSkips(t: string, str: nat)
    requires str <= |t| && AllSpace(t[..str])
    requires str < |t| ==> !IsSpace(t[str])
    ensures TrimLeft(t) == t[str..]
  {
    if str > 0 {
      assert IsSpace(t[..str][0]);
      assert t[1..][..str - 1] == t[..str][1..];
      TrimLeftSkips(t[1..], str - 1);
      assert t[1..][str - 1..] == t[str..];
    }
  }

  /**
   * Where the backward walk at main.c:23 stops, as written: Some(len) once
   * str[len - 1] is not white space, None when the walk reaches len == 0 and
   * reads str[-1], before the start of the string.
   */
  function BackwardWalkAsWritten(s: string, len: nat): (r: Option<nat>)
    requires len <= |s|
    ensures r.None? <==> AllSpace(s[..len])
    ensures r.Some? ==> 0 < r.value <= len && r.value == |TrimRight(s[..len])|
  {
    if len == 0 then None
    else if IsSpace(s[len - 1]) then
      assert s[..len][..len - 1] == s[..len - 1];
      BackwardWalkAsWritten(s, len - 1)
    else Some(len)
  }

  /** Where the forward walk at main.c:24 stops: at the NUL or at a non-space. */
  function ForwardWalkAsWritten(s: string, str: nat): (r: nat)
    requires str <= |s|
    ensures str <= r <= |s| && AllSpace(s[str..r])
    ensures r < |s| ==> !IsSpace(s[r])
    decreases |s| - str
  {
    if str < |s| && IsSpace(s[str]) then ForwardWalkAsWritten(s, str + 1) else str
  }

  /**
   * trim exactly as main.c:20-27 writes it. None stands for the read of
   * str[-1] on a string with no non-space character (undefined behaviour);
   * on every other string it agrees with Trim.
   */
  function TrimAsWritten(s: string): (r: Option<string>)
    ensures r.None? <==> AllSpace(s)
    ensures r.Some? ==> r.value == Trim(s)
  {
    match BackwardWalkAsWritten(s, |s|)
    case None =>
      assert s[..|s|] == s;
      None
    case Some(len) =>
      assert s[..|s|] == s;
      var str := ForwardWalkAsWritten(s, 0);
      assert s[0..str] == s[..str];
      assert str < len by {
        assert !IsSpace(s[len - 1]);
      }
      assert TrimRight(s) == s[..len];
      assert s[..len][..str] == s[..str];
      TrimLeftSkips(s[..len], str);
      assert s[..len][str..] == s[str..len];
      Some(s[str..len])
  }

  /** A line holding only its newline is blank: trim reads before it. */
  lemma TrimOfNewlineReadsOutOfBounds()
    ensures TrimAsWritten("\n") == None && Trim("\n") == ""
  {
    assert AllSpace("\n");
  }

  // ---------------------------------------------------------------------------
  // is_starts_with
  // ---------------------------------------------------------------------------

  /**
   * is_starts_with: walks the prefix and compares it byte by byte with str;
   * running off the end of str compares a prefix character with str's NUL.
   */
  method IsStartsWith(str: string, prefix: string) returns (b: bool)
    ensures b <==> prefix <= str
  {
    var i := 0;
    while i < |prefix|
      invariant 0 <= i <= |prefix| && i <= |str|
      invariant prefix[..i] == str[..i]
    {
      if i == |str| || prefix[i] != str[i] {
        return false;
      }
      i := i + 1;
    }
    assert prefix == str[..i];
    return true;
  }

  // ---------------------------------------------------------------------------
  // strchr and strsep
  // ---------------------------------------------------------------------------

  /** strchr(s, c) as an index: the first c in s, or |s| when there is none. */
  function FirstIndex(s: string, c: char): (i: nat)
    ensures i <= |s| && c !in s[..i]
    ensures i < |s| <==> c in s
    ensures i < |s| ==> s[i] == c
  {
    if s == [] then 0
    else if s[0] == c then 0
    else
      var i := 1 + FirstIndex(s[1..], c);
      assert s[..i] == [s[0]] + s[1..][..i - 1];
      i
  }

  /**
   * strsep(&p, [d]): the token before the first d, advancing p past that d;
   * without a d the token is the whole string and p becomes NULL; a NULL p
   * yields a NULL token and stays NULL.
   */
  function Strsep(p: Option<string>, d: char): (r: (Option<string>, Option<string>))
    ensures p.None? ==> r == (None, None)
    ensures p.Some? ==> r.0.Some? && d !in r.0.value
    ensures p.Some? ==> (r.1.Some? <==> d in p.value)
    ensures p.Some? && r.1.Some? ==> p.value == r.0.value + [d] + r.1.value
    ensures p.Some? && r.1.None? ==> r.0.value == p.value
  {
    match p
    case None => (None, None)
    case Some(s) =>
      var i := FirstIndex(s, d);
      if i == |s| then
        assert s[..i] == s;
        (Some(s), None)
      else
        assert s == s[..i] + [d] + s[i + 1..];
        (Some(s[..i]), Some(s[i + 1..]))
  }

  lemma SplitAt(s: string, i: nat)
    requires i < |s|
    ensures s == s[..i] + [s[i]] + s[i + 1..]
  {
  }

  lemma Regroup(a: string, b: string, c: string, e: string)
    ensures a + b + (c + e) == a + b + c + e
  {
  }

  /** strsep undoes a join: the token is the part before the first d. */
  lemma StrsepJoin(a: string, d: char, b: string)
    requires d !in a
    ensures Strsep(Some(a + [d] + b), d) == (Some(a), Some(b))
  {
    var s := a + [d] + b;
    var i := FirstIndex(s, d);
    assert s[|a|] == d;
    assert s[..|a|] == a;
    assert i == |a|;
    assert s[i + 1..] == b;
  }
}
