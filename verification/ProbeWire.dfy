/**
 The X-NCN-Probes header: printed by the scraper (core-console/backend/fleet.go:1068-1084), parsed
 by the agent (core-console/agent/main.go:389-433).
 */
module ProbeWire {
  import opened Wrappers
  import opened WireText

  datatype Probe = Probe(name: string, target: string, typ: string)

  predicate FieldChar(c: char) {
    'A' <= c <= 'Z' || 'a' <= c <= 'z' || '0' <= c <= '9' || c == '.' || c == '-' || c == ':' || c == '/' || c == '_'
  }

  /** probeFieldOK: everything allowed is one byte long, so the byte limit is a length limit. */
  predicate FieldOK(s: string) {
    0 < |s| <= 80 && forall i :: 0 <= i < |s| ==> FieldChar(s[i])
  }

  predicate TypeOK(t: string) {
    t == "ping4" || t == "ping6"
  }

  predicate ProbeOK(p: Probe) {
    FieldOK(p.name) && FieldOK(p.target) && TypeOK(p.typ)
  }

  // ---------- printing

  function Text(p: Probe): string {
    p.name + "|" + p.target + "|" + p.typ
  }

  function Texts(ps: seq<Probe>): (ts: seq<string>)
    ensures |ts| == |ps| && forall i :: 0 <= i < |ps| ==> ts[i] == Text(ps[i])
  {
    seq(|ps|, i requires 0 <= i < |ps| => Text(ps[i]))
  }

  function Encode(ps: seq<Probe>): string {
    if ps == [] then "" else Join(Texts(ps), ',')
  }

  lemma EncodeStep(ts: seq<string>, i: nat)
    requires i < |ts|
    ensures Join(ts[..i + 1], ',') == (if i == 0 then "" else Join(ts[..i], ',') + [',']) + ts[i]
  {
    assert ts[..i + 1] == ts[..i] + [ts[i]];
    if i > 0 {
      JoinSnoc(ts[..i], ts[i], ',');
    } else {
      assert ts[..1] == [ts[0]];
    }
  }

  method EncodeProbeHeader(ps: seq<Probe>) returns (b: string)
    ensures b == Encode(ps)
  {
    hide Join, Texts;
    if |ps| == 0 { return ""; }
    b := "";
    var i := 0;
    while i < |ps|
      invariant 0 <= i <= |ps|
      invariant b == if i == 0 then "" else Join(Texts(ps)[..i], ',')
    {
      ghost var before := b + if i > 0 then "," else "";
      if i > 0 {
        b := b + ",";
      }
      b := b + ps[i].name;
      b := b + "|";
      b := b + ps[i].target;
      b := b + "|";
      b := b + ps[i].typ;
      assert b == before + Text(ps[i]);
      EncodeStep(Texts(ps), i);
      i := i + 1;
    }
    assert Texts(ps)[..|ps|] == Texts(ps);
  }

  // ---------- parsing

  /** strings.SplitN(entry, "|", 3) when it yields three fields. */
  function ThreeFields(entry: string): Option<Probe> {
    match Cut(entry, '|')
    case None => None
    case Some((name, rest)) =>
      match Cut(rest, '|')
      case None => None
      case Some((target, typ)) => Some(Probe(name, target, typ))
  }

  function ParseEntry(entry: string): Result<Probe> {
    match ThreeFields(entry)
    case None => Err("need name|target|type")
    case Some(p) =>
      if !TypeOK(p.typ) then Err("type must be ping4 or ping6")
      else if !FieldOK(p.name) || !FieldOK(p.target) then Err("name/target charset")
      else Ok(p)
  }

  /** Entry by entry, left to right; blank entries are skipped, the first bad one fails the header. */
  function ParseEntries(entries: seq<string>): Result<seq<Probe>> {
    if entries == [] then Ok([])
    else
      match ParseEntries(entries[..|entries| - 1])
      case Err(e) => Err(e)
      case Ok(ps) =>
        var entry := Trim(entries[|entries| - 1]);
        if entry == "" then Ok(ps)
        else
          match ParseEntry(entry)
          case Err(e) => Err(e)
          case Ok(p) => Ok(ps + [p])
  }

  function Parse(h: string): Result<seq<Probe>> {
    if h == "" then Ok([]) else ParseEntries(Split(h, ','))
  }

  lemma {:induction false} ErrorsStick(entries: seq<string>, k: nat)
    requires k <= |entries| && ParseEntries(entries[..k]).Err?
    ensures ParseEntries(entries) == ParseEntries(entries[..k])
    decreases |entries|
  {
    if k < |entries| {
      var init := entries[..|entries| - 1];
      assert init[..k] == entries[..k];
      ErrorsStick(init, k);
    } else {
      assert entries[..k] == entries;
    }
  }

  method ParseProbeHeader(h: string) returns (r: Result<seq<Probe>>)
    ensures r == Parse(h)
  {
    if h == "" { return Ok([]); }
    var out: seq<Probe> := [];
    var entries := Split(h, ',');
    var i := 0;
    while i < |entries|
      invariant 0 <= i <= |entries|
      invariant ParseEntries(entries[..i]) == Ok(out)
    {
      assert entries[..i + 1][..i] == entries[..i];
      var entry := Trim(entries[i]);
      if entry != "" {
        var fields := ThreeFields(entry);
        var bad := "";
        if fields.None? {
          bad := "need name|target|type";
        } else if fields.value.typ != "ping4" && fields.value.typ != "ping6" {
          bad := "type must be ping4 or ping6";
        } else if !FieldOK(fields.value.name) || !FieldOK(fields.value.target) {
          bad := "name/target charset";
        }
        if bad != "" {
          assert ParseEntries(entries[..i + 1]) == Err(bad);
          ErrorsStick(entries, i + 1);
          return Err(bad);
        }
        out := out + [fields.value];
      }
      i := i + 1;
    }
    assert entries[..|entries|] == entries;
    return Ok(out);
  }

  // ---------- round trips

  lemma FieldsHaveNoSeparators(s: string)
    requires FieldOK(s)
    ensures '|' !in s && ',' !in s && forall i :: 0 <= i < |s| ==> !IsSpace(s[i])
  {
  }

  lemma TextFields(p: Probe)
    requires '|' !in p.name && '|' !in p.target
    ensures ThreeFields(Text(p)) == Some(p)
  {
    hide Cut;
    var rest := p.target + "|" + p.typ;
    assert Text(p) == p.name + ['|'] + rest;
    CutFront(p.name, rest, '|');
    CutFront(p.target, p.typ, '|');
  }

  lemma TypeChars(t: string)
    requires TypeOK(t)
    ensures ',' !in t && |t| == 5 && !IsSpace(t[4])
  {
  }

  lemma TextParses(p: Probe)
    requires ProbeOK(p)
    ensures ParseEntry(Text(p)) == Ok(p) && ',' !in Text(p) && Text(p) != "" && Tight(Text(p))
  {
    hide FieldOK, TypeOK, IsSpace, ThreeFields;
    FieldsHaveNoSeparators(p.name);
    FieldsHaveNoSeparators(p.target);
    TypeChars(p.typ);
    TextFields(p);
    NonEmpty(p.name);
    assert Text(p)[0] == p.name[0];
    assert Text(p)[|Text(p)| - 1] == p.typ[4];
  }

  lemma NonEmpty(s: string)
    requires FieldOK(s)
    ensures |s| > 0
  {
  }

  lemma {:induction false} EntriesParse(ps: seq<Probe>)
    requires forall p :: p in ps ==> ProbeOK(p)
    ensures ParseEntries(Texts(ps)) == Ok(ps)
  {
    hide ProbeOK, Text, ParseEntry, Trim, Tight;
    if ps != [] {
      var init, p := ps[..|ps| - 1], ps[|ps| - 1];
      assert Texts(ps)[..|ps| - 1] == Texts(init);
      EntriesParse(init);
      TextParses(p);
      TrimTight(Text(p));
      assert ps == init + [p];
    }
  }

  /** Whatever the agent accepts is valid. */
  lemma {:induction false} ParsedAreValid(entries: seq<string>)
    requires ParseEntries(entries).Ok?
    ensures forall p :: p in ParseEntries(entries).value ==> ProbeOK(p)
  {
    if entries != [] {
      ParsedAreValid(entries[..|entries| - 1]);
    }
  }

  /** The agent reads back exactly the list the scraper printed iff every probe in it is valid. */
  lemma ProbeRoundTrip(ps: seq<Probe>)
    ensures Parse(Encode(ps)) == Ok(ps) <==> forall p :: p in ps ==> ProbeOK(p)
  {
    if forall p :: p in ps ==> ProbeOK(p) {
      if ps != [] {
        var ts := Texts(ps);
        forall i | 0 <= i < |ts|
          ensures ',' !in ts[i] && ts[i] != ""
        {
          TextParses(ps[i]);
        }
        SplitJoin(ts, ',');
        EntriesParse(ps);
        TextParses(ps[0]);
        assert Join(ts, ',') != "";
      }
    } else {
      var h := Encode(ps);
      if h != "" && Parse(h) == Ok(ps) {
        ParsedAreValid(Split(h, ','));
      }
    }
  }

  /** Any header the agent accepts, however spaced, re-encodes to one it reads the same way. */
  lemma AcceptedHeadersReencode(h: string)
    requires Parse(h).Ok?
    ensures Parse(Encode(Parse(h).value)) == Parse(h)
  {
    if h != "" {
      ParsedAreValid(Split(h, ','));
    }
    ProbeRoundTrip(Parse(h).value);
  }

  /** A probe the wire carries: 1 to 80 plain characters each for name and target, one of two types. */
  predicate Carries(p: Probe) {
    && 1 <= |p.name| <= 80 && (forall i :: 0 <= i < |p.name| ==> PlainChar(p.name[i]))
    && 1 <= |p.target| <= 80 && (forall i :: 0 <= i < |p.target| ==> PlainChar(p.target[i]))
    && (p.typ == "ping4" || p.typ == "ping6")
  }

  /** A letter or digit, or one of . - : / _ */
  predicate PlainChar(c: char) {
    'a' <= c <= 'z' || 'A' <= c <= 'Z' || '0' <= c <= '9' || c in {'.', '-', ':', '/', '_'}
  }

  /** A list comes back unchanged iff the wire carries every probe in it. */
  lemma CarriedIff(ps: seq<Probe>)
    ensures Parse(Encode(ps)) == Ok(ps) <==> forall p :: p in ps ==> Carries(p)
  {
    hide Parse, Encode;
    ProbeRoundTrip(ps);
    forall p: Probe
      ensures Carries(p) <==> ProbeOK(p)
    {
    }
  }

  /** Whatever the header, every probe the agent accepts from it is one the wire carries. */
  lemma AcceptedAreCarried(h: string)
    requires Parse(h).Ok?
    ensures forall p :: p in Parse(h).value ==> Carries(p)
  {
    hide ParseEntries, Split;
    if h != "" {
      ParsedAreValid(Split(h, ','));
    }
  }

  /** The printed header: fields joined with bars, probes with commas. */
  lemma PrintedHeader(ps: seq<Probe>, p: Probe)
    ensures Encode([]) == ""
    ensures Encode(ps + [p]) == (if ps == [] then "" else Encode(ps) + ",") + p.name + "|" + p.target + "|" + p.typ
  {
    hide Join;
    var ts := Texts(ps + [p]);
    assert ts[..|ps|] == Texts(ps);
    assert ts[..|ps| + 1] == ts;
    EncodeStep(ts, |ps|);
    assert "," == [','];
  }

  /** An entry is accepted as a probe iff it is that probe's text and the wire carries the probe. */
  lemma EntryIff(entry: string, p: Probe)
    ensures ParseEntry(entry) == Ok(p) <==> entry == p.name + "|" + p.target + "|" + p.typ && Carries(p)
  {
    hide Cut, FieldOK, IsSpace;
    if ParseEntry(entry) == Ok(p) {
      CutSound(entry, '|');
      var rest := Cut(entry, '|').value.1;
      CutSound(rest, '|');
      assert entry == p.name + ['|'] + (p.target + ['|'] + p.typ);
      assert Carries(p) by { CarriesIsOK(p); }
    } else if entry == p.name + "|" + p.target + "|" + p.typ && Carries(p) {
      CarriesIsOK(p);
      assert entry == Text(p);
      TextParses(p);
      assert false;
    }
  }

  lemma CarriesIsOK(p: Probe)
    ensures Carries(p) <==> ProbeOK(p)
  {
  }

  /** Blanks around an entry do not matter. */
  lemma PaddedHeader(p: Probe, left: char, right: char)
    requires Carries(p) && left in {' ', '\t'} && right in {' ', '\t'}
    ensures Parse([left] + Encode([p]) + [right]) == Ok([p])
  {
    hide ParseEntry, Trim, Text, Tight, Carries;
    CarriesIsOK(p);
    TextParses(p);
    var t := Text(p);
    PrintedOne(p);
    var h := [left] + t + [right];
    TrimPadded(t, left, right);
    assert ',' !in h;
    SplitWhole(h, ',');
    assert [h][..0] == [] && [] + [p] == [p];
    assert h != "" && Trim(h) == t;
    assert ParseEntries([]) == Ok([]);
    assert ParseEntries([h]) == Ok([p]);
  }

  lemma PrintedOne(p: Probe)
    ensures Encode([p]) == Text(p)
  {
  }
}
