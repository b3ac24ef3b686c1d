/**
 * The port-row recognizer (nmap-parser.ts:39-54):
 *
 *   /^(\d+)\/([a-zA-Z0-9_-]+)\s+([a-zA-Z0-9_-]+)\s+([^\s]+)(?:\s+(.*))?$/
 *
 * Each group is followed by something its class cannot contain (`/`,
 * whitespace, a word character, ...), so backtracking never shortens a
 * group: every group and every whitespace run is the longest run of its
 * class. The optional tail is a whitespace run and then `.*` up to the end
 * of the line, which therefore must hold no line terminator. `Split`
 * performs that scan; `Render` glues the pieces back, and the two are
 * inverse on well-formed pieces, so the lines the pattern accepts are
 * exactly the renderings of well-formed pieces and the groups are
 * determined by the line.
 */
module PortLine {
  import opened Text
  import opened Records

  function Pow10(n: nat): (r: nat)
    ensures r > 0
  {
    if n == 0 then 1 else 10 * Pow10(n - 1)
  }

  /** `parseInt(digits, 10)`: a number written with `n` digits is below
      `10^n`. */
  function DecimalValue(ds: string): (v: nat)
    requires All(ds, Digit)
    ensures v < Pow10(|ds|)
  {
    if ds == [] then 0
    else DecimalValue(ds[..|ds| - 1]) * 10 + (ds[|ds| - 1] as int - '0' as int)
  }

  /** Leading zeros do not change the value: `parseInt("0080")` is 80. */
  lemma {:induction false} LeadingZero(ds: string)
    requires All(ds, Digit)
    ensures All("0" + ds, Digit) && DecimalValue("0" + ds) == DecimalValue(ds)
  {
    var z := "0" + ds;
    assert All(z, Digit) by {
      forall i | 0 <= i < |z| ensures IsDigit(z[i]) {
        if i > 0 {
          assert z[i] == ds[i - 1];
        }
      }
    }
    if ds != [] {
      var init := ds[..|ds| - 1];
      assert z[..|z| - 1] == "0" + init;
      assert z[|z| - 1] == ds[|ds| - 1];
      LeadingZero(init);
    }
  }

  /** The pieces of a port row: the five groups and the whitespace between
      them. `tail` is the optional group: its whitespace and group 5. */
  datatype Pieces = Pieces(
    digits: string, protocol: string, sep1: string, state: string,
    sep2: string, service: string, tail: Option<(string, string)>)

  /** The optional group `\s+(.*)` at the end of the line. */
  predicate TailWellFormed(t: Option<(string, string)>) {
    t.Some? ==>
      |t.value.0| > 0 && AllSpace(t.value.0)
      && NoTerminator(t.value.1) && (t.value.1 == [] || !IsSpace(t.value.1[0]))
  }

  /** Pieces that the pattern could have produced. */
  predicate WellFormed(p: Pieces) {
    |p.digits| > 0 && All(p.digits, Digit)
    && |p.protocol| > 0 && All(p.protocol, Word)
    && |p.sep1| > 0 && AllSpace(p.sep1)
    && |p.state| > 0 && All(p.state, Word)
    && |p.sep2| > 0 && AllSpace(p.sep2)
    && |p.service| > 0 && NoSpace(p.service)
    && TailWellFormed(p.tail)
  }

  function TailText(t: Option<(string, string)>): string {
    if t.Some? then t.value.0 + t.value.1 else ""
  }

  /** The line the pieces spell. */
  function Render(p: Pieces): string {
    p.digits + ("/" + (p.protocol + (p.sep1 + (p.state + (p.sep2 + (p.service + TailText(p.tail)))))))
  }

  /** Matching `(?:\s+(.*))?$` against what follows the service. */
  function SplitTail(s: string): (r: Option<Option<(string, string)>>)
    requires s == [] || IsSpace(s[0])
    ensures r.Some? ==> TailWellFormed(r.value) && TailText(r.value) == s
  {
    if s == [] then Some(None)
    else
      var (sep, rest) := Span(s, Space);
      if NoTerminator(rest) then Some(Some((sep, rest))) else None
  }

  /** The classes of the runs between `/` and the optional tail: protocol,
      whitespace, state, whitespace, service. */
  const RowClasses: seq<Class> := [Word, Space, Word, Space, NonSpace]

  /** Those runs of `p`, in order. */
  function Runs5(p: Pieces): seq<string> {
    [p.protocol, p.sep1, p.state, p.sep2, p.service]
  }

  lemma ConcatRuns5(p: Pieces)
    ensures Concat(Runs5(p)) == p.protocol + (p.sep1 + (p.state + (p.sep2 + p.service)))
  {
    var rs := Runs5(p);
    assert Concat(rs[4..]) == p.service by {
      assert rs[4..][1..] == [];
    }
    assert Concat(rs[3..]) == p.sep2 + p.service by {
      assert rs[3..][1..] == rs[4..];
    }
    assert Concat(rs[2..]) == p.state + (p.sep2 + p.service) by {
      assert rs[2..][1..] == rs[3..];
    }
    assert Concat(rs[1..]) == p.sep1 + (p.state + (p.sep2 + p.service)) by {
      assert rs[1..][1..] == rs[2..];
    }
  }

  /** Runs matched by `Runs` against `RowClasses`, put together with the
      digits and the tail, form well-formed pieces spelling the line. */
  lemma RowPieces(line: string, digits: string, s1: string, rs: seq<string>, s6: string, tail: Option<(string, string)>)
    requires line == digits + s1 && |digits| > 0 && All(digits, Digit)
    requires |s1| > 0 && s1[0] == '/' && s1[1..] == Concat(rs) + s6
    requires |rs| == 5 && forall i :: 0 <= i < 5 ==> |rs[i]| > 0 && All(rs[i], RowClasses[i])
    requires TailWellFormed(tail) && TailText(tail) == s6
    ensures WellFormed(Pieces(digits, rs[0], rs[1], rs[2], rs[3], rs[4], tail))
    ensures Render(Pieces(digits, rs[0], rs[1], rs[2], rs[3], rs[4], tail)) == line
  {
    var p := Pieces(digits, rs[0], rs[1], rs[2], rs[3], rs[4], tail);
    assert Runs5(p) == rs;
    ConcatRuns5(p);
    assert s1 == "/" + s1[1..];
    assert All(rs[0], RowClasses[0]) && All(rs[1], RowClasses[1]) && All(rs[2], RowClasses[2]);
    assert All(rs[3], RowClasses[3]) && All(rs[4], RowClasses[4]);
  }

  /** Matching the pattern: each group is the longest run of its class. */
  function Split(line: string): (r: Option<Pieces>)
    ensures r.Some? ==> WellFormed(r.value) && Render(r.value) == line
  {
    var (digits, s1) := Span(line, Digit);
    if digits == [] || s1 == [] || s1[0] != '/' then None
    else match Runs(s1[1..], RowClasses)
      case None => None
      case Some((rs, s6)) =>
        assert RowClasses[4] == NonSpace;
        match SplitTail(s6)
        case None => None
        case Some(tail) =>
          RowPieces(line, digits, s1, rs, s6, tail);
          Some(Pieces(digits, rs[0], rs[1], rs[2], rs[3], rs[4], tail))
  }

  /** The scan of a well-formed row finds its five runs and its tail. */
  lemma RunsOfRow(p: Pieces)
    requires WellFormed(p)
    ensures Runs(Concat(Runs5(p)) + TailText(p.tail), RowClasses) == Some((Runs5(p), TailText(p.tail)))
  {
    var t := TailText(p.tail);
    var rs := Runs5(p);
    forall i | 0 <= i < |RowClasses| ensures |rs[i]| > 0 && All(rs[i], RowClasses[i]) {
      if i == 0 {} else if i == 1 {} else if i == 2 {} else if i == 3 {} else {}
    }
    forall i | 0 <= i < |RowClasses| - 1 ensures Excludes(RowClasses[i], RowClasses[i + 1]) {
      if i == 0 {} else if i == 1 {} else if i == 2 {} else {}
    }
    if t != [] {
      assert t[0] == p.tail.value.0[0];
    }
    RunsOf(rs, t, RowClasses);
  }

  /** `Split` assembles the pieces its scans find. */
  lemma SplitOf(line: string, s1: string, rs: seq<string>, t: string, p: Pieces)
    requires Span(line, Digit) == (p.digits, s1) && p.digits != [] && s1 != [] && s1[0] == '/'
    requires Runs(s1[1..], RowClasses) == Some((rs, t)) && SplitTail(t) == Some(p.tail)
    requires rs == Runs5(p)
    ensures Split(line) == Some(p)
  {
  }

  /** The converse of `Split`'s contract: well-formed pieces are recovered
      from the line they spell. */
  lemma SplitRender(p: Pieces)
    requires WellFormed(p)
    ensures Split(Render(p)) == Some(p)
  {
    var t := TailText(p.tail);
    var rs := Runs5(p);
    ConcatRuns5(p);
    var s1 := "/" + (Concat(rs) + t);
    assert Render(p) == p.digits + s1;
    SpanOf(p.digits, s1, Digit);
    assert s1[1..] == Concat(rs) + t;
    RunsOfRow(p);
    if p.tail.Some? {
      SpanOf(p.tail.value.0, p.tail.value.1, Space);
    }
    SplitOf(Render(p), s1, rs, t, p);
  }

  /** `line.match(portPattern)` turned into a `Port` (nmap-parser.ts:45-52):
      `version` is group 5 or `""`, `scripts` is empty. */
  function Match(line: string): (r: Option<Port>)
    ensures r.Some? ==> r.value.scripts == [] && |r.value.protocol| > 0 && All(r.value.protocol, Word)
    ensures r.Some? ==> |r.value.state| > 0 && All(r.value.state, Word)
    ensures r.Some? ==> |r.value.service| > 0 && NoSpace(r.value.service)
    ensures r.Some? ==> NoTerminator(r.value.version) && (r.value.version == [] || !IsSpace(r.value.version[0]))
  {
    match Split(line)
    case None => None
    case Some(p) => Some(PortOf(p))
  }

  /** The port a row spells: the number has no more digits than the row
      writes, the text fields are the groups, and the version is what ends
      the row after the optional group's whitespace. */
  function PortOf(p: Pieces): (r: Port)
    requires WellFormed(p)
    ensures r.portId < Pow10(|p.digits|)
    ensures r.protocol == p.protocol && r.state == p.state && r.service == p.service && r.scripts == []
    ensures |r.version| <= |Render(p)| && Render(p)[|Render(p)| - |r.version|..] == r.version
    ensures r.version != [] ==> p.tail.Some?
  {
    Port(DecimalValue(p.digits), p.protocol, p.state, p.service,
         if p.tail.Some? then p.tail.value.1 else "", [])
  }

  /** `line.startsWith('PORT') && line.includes('STATE')` (nmap-parser.ts:42). */
  function IsHeader(line: string): (h: bool)
    ensures h <==> StartsWith(line, "PORT") && exists i :: 0 <= i <= |line| && StartsWith(line[i..], "STATE")
  {
    ContainsAt(line, "STATE");
    StartsWith(line, "PORT") && Contains(line, "STATE")
  }

  /** The header test never overrides a match: a row begins with a digit and
      a header with `P`, so `portMatch && !isPortHeader` is `portMatch`. */
  lemma HeaderNeverMatches(line: string)
    ensures Match(line).Some? ==> !IsHeader(line)
    ensures StartsWith(line, "PORT") ==> Match(line).None?
  {
    if StartsWith(line, "PORT") {
      assert line[0] == "PORT"[0];
      assert RunLength(line, Digit) == 0;
    }
  }

  /** The port row round trip: a well-formed row parses to the port it spells. */
  lemma MatchRender(p: Pieces)
    requires WellFormed(p)
    ensures Match(Render(p)) == Some(PortOf(p))
    ensures Match(Render(p)).value.portId == DecimalValue(p.digits)
    ensures Match(Render(p)).value.protocol == p.protocol && Match(Render(p)).value.state == p.state
    ensures Match(Render(p)).value.service == p.service && Match(Render(p)).value.scripts == []
    ensures Match(Render(p)).value.version == if p.tail.Some? then p.tail.value.1 else ""
  {
    SplitRender(p);
  }

  /** A row begins with `<port>/<protocol>`, a run without whitespace. */
  lemma RowHead(p: Pieces)
    requires WellFormed(p)
    ensures var h := p.digits + "/" + p.protocol;
      |h| > 0 && NoSpace(h)
      && Render(p) == h + (p.sep1 + (p.state + (p.sep2 + (p.service + TailText(p.tail)))))
  {
    WordIsNonSpace(p.protocol);
    assert NoSpace(p.digits) by {
      forall i | 0 <= i < |p.digits| ensures !IsSpace(p.digits[i]) {
        ExcludesSound(Space, Digit, p.digits[i]);
      }
    }
    AllConcat(p.digits, "/", NonSpace);
    AllConcat(p.digits + "/", p.protocol, NonSpace);
  }

  /** A row has at least three whitespace-separated fields
      (`<port>/<protocol>`, state, service): lines with fewer never match. */
  lemma MatchNeedsThreeFields(line: string)
    ensures Match(line).Some? ==> CountFields(line) >= 3
  {
    if Split(line).Some? {
      var p := Split(line).value;
      var t := TailText(p.tail);
      var head := p.digits + "/" + p.protocol;
      RowHead(p);
      WordIsNonSpace(p.state);
      CountFieldsWord(p.service, t);
      CountFieldsSkip(p.sep2, p.service + t);
      CountFieldsWord(p.state, p.sep2 + (p.service + t));
      CountFieldsSkip(p.sep1, p.state + (p.sep2 + (p.service + t)));
      CountFieldsWord(head, p.sep1 + (p.state + (p.sep2 + (p.service + t))));
    }
  }

  /** A state holding a character outside `[a-zA-Z0-9_-]`, such as `|` in
      `open|filtered`, makes the whole line fail: no port is created. */
  lemma StateOutsideClassNeverMatches(head: string, sep: string, state: string, rest: string, k: nat)
    requires |head| > 0 && NoSpace(head)
    requires |sep| > 0 && AllSpace(sep)
    requires NoSpace(state) && k < |state| && !IsWordChar(state[k])
    requires rest == [] || IsSpace(rest[0])
    ensures Match(head + sep + state + rest).None?
  {
    var line := head + sep + state + rest;
    if Split(line).Some? {
      StateOfRow(Split(line).value, head, sep, state, rest);
      assert false;
    }
  }

  /** In a row `<head> <state> <rest>`, the state is the third field. */
  lemma StateOfRow(p: Pieces, head: string, sep: string, state: string, rest: string)
    requires WellFormed(p)
    requires |head| > 0 && NoSpace(head)
    requires |sep| > 0 && AllSpace(sep)
    requires |state| > 0 && NoSpace(state)
    requires rest == [] || IsSpace(rest[0])
    requires Render(p) == head + sep + state + rest
    ensures p.state == state
  {
    var t := TailText(p.tail);
    var h := p.digits + "/" + p.protocol;
    var s3 := p.state + (p.sep2 + (p.service + t));
    RowHead(p);
    WordIsNonSpace(p.state);
    assert Render(p) == head + (sep + (state + rest));
    SpanUnique(h, p.sep1 + s3, head, sep + (state + rest), NonSpace);
    SpanUnique(p.sep1, s3, sep, state + rest, Space);
    SpanUnique(p.state, p.sep2 + (p.service + t), state, rest, NonSpace);
  }
}
