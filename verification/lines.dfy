/** The CTA train lines and the `line:name` station identifiers built from them. */
module Lines {
  import opened Base

  datatype Line = Red | Blue | Green | Brown | Purple | Yellow | Pink | Orange

  /** The string form of a line: its lowercase value, as `str(line)` gives it. */
  function LineName(l: Line): (s: string)
    ensures |s| > 0 && ':' !in s
  {
    match l
    case Red => "red"
    case Blue => "blue"
    case Green => "green"
    case Brown => "brown"
    case Purple => "purple"
    case Yellow => "yellow"
    case Pink => "pink"
    case Orange => "orange"
  }

  /** The string form of an optional line: Python formats a missing line as "None". */
  function OptLineName(l: Option<Line>): (s: string)
    ensures ':' !in s
    ensures l.Some? ==> s == LineName(l.value)
  {
    if l.Some? then LineName(l.value) else "None"
  }

  /** Looking a line up by its value, as `CTATrainLine(s)` does; `None` where that raises. */
  function ParseLine(s: string): (r: Option<Line>)
    ensures r.Some? ==> LineName(r.value) == s
  {
    if s == "red" then Some(Red)
    else if s == "blue" then Some(Blue)
    else if s == "green" then Some(Green)
    else if s == "brown" then Some(Brown)
    else if s == "purple" then Some(Purple)
    else if s == "yellow" then Some(Yellow)
    else if s == "pink" then Some(Pink)
    else if s == "orange" then Some(Orange)
    else None
  }

  /** The lookup fails exactly for a string that is no line's value. */
  lemma ParseLineFails(s: string)
    ensures ParseLine(s).None? <==> forall l :: LineName(l) != s
  {
  }

  lemma ParseLineName(l: Line)
    ensures ParseLine(LineName(l)) == Some(l)
  {
  }

  /** A station identifier `prefix:name`. */
  function JoinId(prefix: string, name: string): (id: string)
    ensures |id| == |prefix| + 1 + |name|
    ensures id[|prefix|] == ':'
  {
    prefix + ":" + name
  }

  /** Index of the first ':' of `s`. */
  function FirstColon(s: string): (i: nat)
    requires ':' in s
    ensures i < |s| && s[i] == ':'
    ensures ':' !in s[..i]
  {
    if s[0] == ':' then 0
    else
      assert s == [s[0]] + s[1..];
      var j := FirstColon(s[1..]);
      assert s[..j + 1] == [s[0]] + s[1..][..j];
      j + 1
  }

  lemma FirstColonOfJoin(prefix: string, name: string)
    requires ':' !in prefix
    ensures FirstColon(JoinId(prefix, name)) == |prefix|
  {
    var s := JoinId(prefix, name);
    var i := FirstColon(s);
    assert forall k :: 0 <= k < |prefix| ==> s[k] == prefix[k];
    assert forall j :: |prefix| < j <= |s| ==> s[..j][|prefix|] == ':';
  }

  /** Identifiers whose prefix has no ':' determine prefix and name. */
  lemma JoinIdInjective(p1: string, n1: string, p2: string, n2: string)
    requires ':' !in p1 && ':' !in p2
    requires JoinId(p1, n1) == JoinId(p2, n2)
    ensures p1 == p2 && n1 == n2
  {
    var s := JoinId(p1, n1);
    FirstColonOfJoin(p1, n1);
    FirstColonOfJoin(p2, n2);
    assert p1 == s[..|p1|];
    assert n1 == s[|p1| + 1..];
  }

  /** `line, name = s.split(":")`: succeeds only when `s` holds exactly one ':'. */
  function SplitId(s: string): (r: Option<(string, string)>)
    ensures r.Some? ==> ':' !in r.value.0 && ':' !in r.value.1
    ensures r.Some? ==> s == JoinId(r.value.0, r.value.1)
  {
    if ':' !in s then None
    else
      var i := FirstColon(s);
      if ':' in s[i + 1..] then None
      else
        assert s == s[..i] + ":" + s[i + 1..];
        Some((s[..i], s[i + 1..]))
  }

  /** Splitting an identifier built from colon-free parts gives the parts back. */
  lemma SplitJoinId(prefix: string, name: string)
    requires ':' !in prefix && ':' !in name
    ensures SplitId(JoinId(prefix, name)) == Some((prefix, name))
  {
    var s := JoinId(prefix, name);
    FirstColonOfJoin(prefix, name);
    assert s[|prefix| + 1..] == name;
    assert s[..|prefix|] == prefix;
  }

  /** An identifier with a ':' inside its name cannot be split back. */
  lemma SplitRejectsColonInName(prefix: string, name: string)
    requires ':' !in prefix && ':' in name
    ensures SplitId(JoinId(prefix, name)) == None
  {
    var s := JoinId(prefix, name);
    FirstColonOfJoin(prefix, name);
    assert s[|prefix| + 1..] == name;
  }
}
