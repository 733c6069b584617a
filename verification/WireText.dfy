/** The text primitives both ends of the scraper wire use: splitting, joining, cutting, trimming. */
module WireText {
  import opened Wrappers

  /** strings.Split on one separator character. */
  function Split(s: string, c: char): (r: seq<string>)
    ensures |r| >= 1
  {
    if s == "" then [""]
    else
      var rest := Split(s[1..], c);
      if s[0] == c then [""] + rest else [[s[0]] + rest[0]] + rest[1..]
  }

  function Join(parts: seq<string>, c: char): string
    requires |parts| >= 1
  {
    if |parts| == 1 then parts[0] else parts[0] + [c] + Join(parts[1..], c)
  }

  /** strings.Cut: around the first separator. */
  function Cut(s: string, c: char): Option<(string, string)> {
    if s == "" then None
    else if s[0] == c then Some(("", s[1..]))
    else
      match Cut(s[1..], c)
      case None => None
      case Some((a, b)) => Some(([s[0]] + a, b))
  }

  /** unicode.IsSpace */
  predicate IsSpace(c: char) {
    var u := c as int;
    9 <= u <= 13 || u == 32 || u == 0x85 || u == 0xA0 || u == 0x1680 || 0x2000 <= u <= 0x200A ||
    u == 0x2028 || u == 0x2029 || u == 0x202F || u == 0x205F || u == 0x3000
  }

  function TrimLeft(s: string): string {
    if s != "" && IsSpace(s[0]) then TrimLeft(s[1..]) else s
  }

  function TrimRight(s: string): string {
    if s != "" && IsSpace(s[|s| - 1]) then TrimRight(s[..|s| - 1]) else s
  }

  function Trim(s: string): string {
    TrimRight(TrimLeft(s))
  }

  /** Nothing to trim. */
  predicate Tight(s: string) {
    s == "" || (!IsSpace(s[0]) && !IsSpace(s[|s| - 1]))
  }

  lemma TrimTight(s: string)
    requires Tight(s)
    ensures Trim(s) == s
  {
  }

  lemma {:induction false} SplitFront(p: string, rest: string, c: char)
    requires c !in p
    ensures Split(p + [c] + rest, c) == [p] + Split(rest, c)
  {
    if p == "" {
      assert ("" + [c] + rest)[1..] == rest;
    } else {
      assert (p + [c] + rest)[1..] == p[1..] + [c] + rest;
      SplitFront(p[1..], rest, c);
      var tail := Split(p[1..] + [c] + rest, c);
      assert tail[0] == p[1..] && tail[1..] == Split(rest, c);
      assert [p[0]] + p[1..] == p;
    }
  }

  lemma {:induction false} SplitWhole(p: string, c: char)
    requires c !in p
    ensures Split(p, c) == [p]
  {
    if p != "" {
      SplitWhole(p[1..], c);
      assert [p[0]] + p[1..] == p;
    }
  }

  /** Splitting undoes joining parts free of the separator. */
  lemma {:induction false} SplitJoin(parts: seq<string>, c: char)
    requires |parts| >= 1 && forall i :: 0 <= i < |parts| ==> c !in parts[i]
    ensures Split(Join(parts, c), c) == parts
  {
    if |parts| == 1 {
      SplitWhole(parts[0], c);
    } else {
      SplitJoin(parts[1..], c);
      SplitFront(parts[0], Join(parts[1..], c), c);
    }
  }

  /** Appending one more part. */
  lemma {:induction false} JoinSnoc(parts: seq<string>, p: string, c: char)
    requires |parts| >= 1
    ensures Join(parts + [p], c) == Join(parts, c) + [c] + p
  {
    if |parts| > 1 {
      assert (parts + [p])[1..] == parts[1..] + [p];
      JoinSnoc(parts[1..], p, c);
      assert parts[0] + [c] + (Join(parts[1..], c) + [c] + p) == (parts[0] + [c] + Join(parts[1..], c)) + [c] + p;
    } else {
      assert (parts + [p])[1..] == [p];
    }
  }

  lemma {:induction false} CutFront(p: string, rest: string, c: char)
    requires c !in p
    ensures Cut(p + [c] + rest, c) == Some((p, rest))
  {
    var s := p + [c] + rest;
    if p == "" {
      assert s[1..] == rest;
    } else {
      assert s[1..] == p[1..] + [c] + rest;
      CutFront(p[1..], rest, c);
      assert [p[0]] + p[1..] == p;
    }
  }

  /** What Cut returns is a decomposition, its first half free of the separator. */
  lemma {:induction false} CutSound(s: string, c: char)
    ensures Cut(s, c).Some? ==> s == Cut(s, c).value.0 + [c] + Cut(s, c).value.1 && c !in Cut(s, c).value.0
    ensures Cut(s, c).None? ==> c !in s
  {
    if s != "" && s[0] != c {
      CutSound(s[1..], c);
      assert s == [s[0]] + s[1..];
    } else if s != "" {
      assert s == [] + [c] + s[1..];
    }
  }

  /** One blank on each side is trimmed off. */
  lemma TrimPadded(s: string, left: char, right: char)
    requires s != "" && Tight(s) && left in {' ', '\t'} && right in {' ', '\t'}
    ensures Trim([left] + s + [right]) == s
  {
    var all, rest := [left] + s + [right], s + [right];
    assert IsSpace(left) && IsSpace(right);
    assert all[0] == left && all[1..] == rest && rest[0] == s[0];
    assert rest[|rest| - 1] == right && rest[..|rest| - 1] == s;
    hide IsSpace;
    assert TrimLeft(all) == TrimLeft(rest) == rest;
    assert TrimRight(s) == s;
  }
}
