/**
 * A three-line report read end to end: a host line, a port row and an
 * inline script line give one host with one port and one script entry.
 */
module ReportExample {
  import opened Text
  import opened Records
  import HostLine
  import PortLine
  import ScriptLine
  import ScriptTable
  import opened NmapParser
  import opened ParserProperties
  import LineExamples

  /** The host line starts the host. */
  lemma FirstLine(l1: string)
    requires l1 == "Nmap scan report for host.example (10.0.0.5)"
    ensures Step(Start, l1) == Scan([Host("10.0.0.5", [], None)], None)
  {
    LineExamples.AddressPreferred(l1, "host.example", "10.0.0.5");
    HostLineStep(Start, l1);
  }

  /** The port row adds the port and makes it the current one. */
  lemma SecondLine(s1: Scan, l2: string)
    requires s1 == Scan([Host("10.0.0.5", [], None)], None)
    requires l2 == "22/tcp closed ssh"
    ensures Step(s1, l2)
      == Scan([Host("10.0.0.5", [Port(22, "tcp", "closed", "ssh", "", [])], None)], Some(Loc(0, 0)))
  {
    LineExamples.ClosedSsh(l2, "tcp", "closed", "ssh");
    assert l2[0] == '2';
    HostLineNeedsN(l2);
    PortRowIsAddPort(s1, l2);
    var port := Port(22, "tcp", "closed", "ssh", "", []);
    assert [] + [port] == [port];
    assert AddPort(s1, port) == Scan([Host("10.0.0.5", [port], None)], Some(Loc(0, 0)));
  }

  /** A key:value line on a host with one port, whose scripts are empty,
      gives that port its first entry. */
  lemma FirstEntry(s: Scan, line: string, ip: string, port: Port, key: string, value: string)
    requires s == Scan([Host(ip, [port], None)], Some(Loc(0, 0))) && port.scripts == []
    requires ScriptLine.IsScriptLine(line) && ScriptLine.MatchScript(line) == Some((key, value))
    ensures Step(s, line).hosts == [Host(ip, [port.(scripts := [(key, value)])], None)]
  {
    ScriptLineAssigns(s, line, key, value);
    var r := Step(s, line);
    assert ScriptsAt(r, Loc(0, 0)) == [(key, value)] by {
      assert ScriptTable.IndexOf([], key).None?;
    }
    assert r.hosts[0].ports[0] == port.(scripts := [(key, value)]);
    assert r.hosts[0].ports == [port.(scripts := [(key, value)])];
    assert r.hosts[0] == Host(ip, [port.(scripts := [(key, value)])], None);
  }

  /** The inline script line fills the scripts of the port. */
  lemma ThirdLine(s2: Scan, l3: string)
    requires s2 == Scan([Host("10.0.0.5", [Port(22, "tcp", "closed", "ssh", "", [])], None)], Some(Loc(0, 0)))
    requires l3 == "|_http-title: Welcome"
    ensures Step(s2, l3).hosts
      == [Host("10.0.0.5", [Port(22, "tcp", "closed", "ssh", "", [("http-title", "Welcome")])], None)]
  {
    LineExamples.InlineTitle(l3, "http-title", "Welcome");
    assert ScriptLine.IsScriptLine(l3) by {
      assert l3[..1] == "|";
    }
    FirstEntry(s2, l3, "10.0.0.5", Port(22, "tcp", "closed", "ssh", "", []), "http-title", "Welcome");
  }

  /** Three lines are three steps from the start. */
  lemma RunThree(a: string, b: string, c: string)
    ensures Run([a, b, c]) == Step(Step(Step(Start, a), b), c)
  {
    var lines := [a, b, c];
    RunSnoc(lines, 0);
    RunSnoc(lines, 1);
    RunSnoc(lines, 2);
    assert lines[..0] == [] && lines[..3] == lines;
  }

  /** Three lines joined by newlines. */
  lemma JoinThree(a: string, b: string, c: string)
    ensures JoinLines([a, b, c]) == a + "\n" + b + "\n" + c
  {
    assert [a, b, c][1..] == [b, c] && [b, c][1..] == [c];
    assert JoinLines([c]) == c;
    assert JoinLines([b, c]) == b + "\n" + c;
    assert JoinLines([a, b, c]) == a + "\n" + (b + "\n" + c);
    assert a + "\n" + (b + "\n" + c) == a + "\n" + b + "\n" + c;
  }

  /** A line that `LinesOfJoin` reads back unchanged. */
  predicate CleanLine(l: string) {
    '\n' !in l && l != [] && !IsSpace(l[|l| - 1])
  }

  lemma HostLineClean(l1: string)
    requires l1 == "Nmap scan report for host.example (10.0.0.5)"
    ensures CleanLine(l1)
  {
  }

  lemma PortRowClean(l2: string)
    requires l2 == "22/tcp closed ssh"
    ensures CleanLine(l2)
  {
  }

  lemma ScriptLineClean(l3: string)
    requires l3 == "|_http-title: Welcome"
    ensures CleanLine(l3)
  {
  }

  /** The report text is read as its three lines. */
  lemma ReportLines(l1: string, l2: string, l3: string)
    requires l1 == "Nmap scan report for host.example (10.0.0.5)"
    requires l2 == "22/tcp closed ssh"
    requires l3 == "|_http-title: Welcome"
    ensures ParseSpec(l1 + "\n" + l2 + "\n" + l3) == Run([l1, l2, l3]).hosts
  {
    var lines := [l1, l2, l3];
    JoinThree(l1, l2, l3);
    HostLineClean(l1);
    PortRowClean(l2);
    ScriptLineClean(l3);
    LinesOfJoin(lines);
  }

  /** The whole report gives one host with one port and one script entry
      (nmap-parser.ts:17-94). */
  lemma ThreeLineReport(l1: string, l2: string, l3: string)
    requires l1 == "Nmap scan report for host.example (10.0.0.5)"
    requires l2 == "22/tcp closed ssh"
    requires l3 == "|_http-title: Welcome"
    ensures ParseSpec(l1 + "\n" + l2 + "\n" + l3)
      == [Host("10.0.0.5", [Port(22, "tcp", "closed", "ssh", "", [("http-title", "Welcome")])], None)]
  {
    ReportLines(l1, l2, l3);
    RunThree(l1, l2, l3);
    FirstLine(l1);
    SecondLine(Step(Start, l1), l2);
    ThirdLine(Step(Step(Start, l1), l2), l3);
  }
}
