/**
 * The host-report recognizer (nmap-parser.ts:26-31):
 *
 *   /^Nmap scan report for (.*?)(?:\s+\((.*?)\))?$/
 *
 * After the fixed prefix the rest `r` of the line is split at the SMALLEST
 * `k` (the group `(.*?)` is lazy) such that `r[..k]` holds no line terminator
 * (`.` does not match one) and `r[k..]` is either empty or a whitespace run
 * followed by `(`, an address without line terminators, and a closing `)`
 * that ends the line. At each `k` the parenthesised tail is tried before the
 * empty one (the optional group is greedy). `r[..k]` is group 1, the address
 * (when the tail is used) group 2.
 */
module HostLine {
  import opened Text

  const Prefix: string := "Nmap scan report for "

  /** The two capture groups of a match: the name and the optional address. */
  datatype Captures = Captures(name: string, address: Option<string>)

  /** `t` matches `\s+\((.*?)\)$` in full. The whitespace run is greedy and
      `(` is not whitespace, so the run is the longest whitespace prefix. */
  predicate AddressTail(t: string) {
    var w := RunLength(t, Space);
    0 < w && w + 2 <= |t| && t[w] == '(' && t[|t| - 1] == ')' && NoTerminator(t[w + 1..|t| - 1])
  }

  /** Group 2 of a tail that matches. */
  function AddressOf(t: string): (a: string)
    requires AddressTail(t)
    ensures |a| + 2 <= |t| && NoTerminator(a)
    ensures t[|t| - |a| - 2..] == "(" + a + ")"
  {
    var w := RunLength(t, Space);
    var a := t[w + 1..|t| - 1];
    assert t[|t| - |a| - 2..] == [t[w]] + a + [t[|t| - 1]];
    a
  }

  /** The regular expression can end group 1 at `k`. */
  predicate SplitsAt(r: string, k: nat) {
    k <= |r| && NoTerminator(r[..k]) && (AddressTail(r[k..]) || k == |r|)
  }

  /** The backtracking search for group 1, trying lengths `k, k+1, ...`.
      It finds the least length at which the line can be split, and fails
      when there is none. */
  function SplitIndex(r: string, k: nat): (n: Option<nat>)
    requires k <= |r| && NoTerminator(r[..k])
    ensures n.Some? ==> k <= n.value <= |r| && SplitsAt(r, n.value)
    ensures n.Some? ==> forall j :: k <= j < n.value ==> !SplitsAt(r, j)
    ensures n.None? ==> forall j :: k <= j <= |r| ==> !SplitsAt(r, j)
    decreases |r| - k
  {
    if AddressTail(r[k..]) || k == |r| then Some(k)
    else if IsLineTerminator(r[k]) then
      assert forall j :: k < j <= |r| ==> r[..j][k] == r[k];
      None
    else
      assert r[..k + 1] == r[..k] + [r[k]];
      SplitIndex(r, k + 1)
  }

  /** The captures for group 1 ending at `n`: the tail, when it is used,
      gives the address. */
  function CapturesAt(r: string, n: nat): (c: Captures)
    requires n <= |r|
    ensures c.name == r[..n]
    ensures c.address.Some? ==>
      AddressTail(r[n..]) && |c.address.value| + 2 <= |r| - n
      && r[|r| - |c.address.value| - 2..] == "(" + c.address.value + ")"
    ensures c.address.None? ==> !AddressTail(r[n..])
  {
    var t := r[n..];
    Captures(r[..n], if AddressTail(t) then Some(AddressOf(t)) else None)
  }

  /** A whitespace run and a parenthesised address without line terminators
      form the optional group, and group 2 is that address. */
  lemma TailOf(sep: string, address: string)
    requires |sep| > 0 && AllSpace(sep)
    requires NoTerminator(address)
    ensures AddressTail(sep + "(" + address + ")")
    ensures AddressOf(sep + "(" + address + ")") == address
  {
    var t := sep + "(" + address + ")";
    assert t[|sep|] == '(';
    RunLengthOf(sep, "(" + address + ")", Space);
    assert t == sep + ("(" + address + ")");
    assert t[|sep| + 1..|t| - 1] == address;
  }

  /** Every line with the prefix whose rest holds no line terminator is a
      host line: the lazy group can always take the whole rest, with the
      optional group left out. */
  lemma PrefixSuffices(line: string)
    requires StartsWith(line, Prefix) && NoTerminator(line[|Prefix|..])
    ensures Match(line).Some?
  {
    var r := line[|Prefix|..];
    assert r[..|r|] == r;
    assert SplitsAt(r, |r|);
  }

  /** `line.match(...)` for the host-report pattern: the captures at the
      least split point of the text after the prefix. */
  function Match(line: string): (c: Option<Captures>)
    ensures c.Some? ==> StartsWith(line, Prefix) && NoTerminator(c.value.name)
    ensures c.Some? ==> var r := line[|Prefix|..]; var n := |c.value.name|;
      n <= |r| && SplitsAt(r, n) && c == Some(CapturesAt(r, n))
      && forall j :: 0 <= j < n ==> !SplitsAt(r, j)
    ensures c.None? ==> !StartsWith(line, Prefix) || forall j :: 0 <= j <= |line| - |Prefix| ==> !SplitsAt(line[|Prefix|..], j)
  {
    if !StartsWith(line, Prefix) then None
    else match SplitIndex(line[|Prefix|..], 0)
      case None => None
      case Some(n) => Some(CapturesAt(line[|Prefix|..], n))
  }

  /** `hostMatch[2] || hostMatch[1]` (nmap-parser.ts:31): the address when it
      was captured and is not empty, the name otherwise. */
  function Ip(c: Captures): (ip: string)
    ensures c.address.Some? && c.address.value != "" ==> ip == c.address.value
    ensures c.address.None? || c.address.value == "" ==> ip == c.name
  {
    if c.address.Some? && c.address.value != "" then c.address.value else c.name
  }

  /** The match is the captures at the least split point of the rest. */
  lemma MatchAt(line: string, n: nat)
    requires StartsWith(line, Prefix)
    requires n <= |line| - |Prefix| && SplitsAt(line[|Prefix|..], n)
    requires forall j :: 0 <= j < n ==> !SplitsAt(line[|Prefix|..], j)
    ensures Match(line) == Some(CapturesAt(line[|Prefix|..], n))
  {
  }

  /** No split point falls inside a name without whitespace: the optional
      group needs whitespace where it starts. */
  lemma NoSplitInName(r: string, name: string)
    requires NoSpace(name) && |name| <= |r| && r[..|name|] == name
    ensures forall j :: 0 <= j < |name| ==> !SplitsAt(r, j)
  {
    forall j | 0 <= j < |name| ensures !SplitsAt(r, j) {
      assert r[j..][0] == r[..|name|][j] == name[j];
    }
  }

  /** `Nmap scan report for <name> (<address>)`: a name without whitespace,
      followed by whitespace and a parenthesised address, yields that name
      and that address. */
  lemma NameAndAddress(name: string, sep: string, address: string)
    requires NoSpace(name)
    requires |sep| > 0 && AllSpace(sep)
    requires NoTerminator(address)
    ensures Match(Prefix + name + sep + "(" + address + ")") == Some(Captures(name, Some(address)))
  {
    var t := sep + "(" + address + ")";
    var line := Prefix + (name + t);
    assert Prefix + name + sep + "(" + address + ")" == line;
    var r := line[|Prefix|..];
    assert r == name + t;
    assert r[..|name|] == name && r[|name|..] == t;
    NoSplitInName(r, name);
    TailOf(sep, address);
    assert NoTerminator(name) by {
      forall i | 0 <= i < |name| ensures !IsLineTerminator(name[i]) {
      }
    }
    MatchAt(line, |name|);
  }

  /** `Nmap scan report for <address>`: a rest without whitespace is the name
      and there is no address. */
  lemma NameOnly(name: string)
    requires NoSpace(name)
    ensures Match(Prefix + name) == Some(Captures(name, None))
  {
    var line := Prefix + name;
    var r := line[|Prefix|..];
    assert r == name;
    assert r[..|name|] == name;
    NoSplitInName(r, name);
    assert NoTerminator(name) by {
      forall i | 0 <= i < |name| ensures !IsLineTerminator(name[i]) {
      }
    }
    assert !AddressTail(r[|name|..]);
    MatchAt(line, |name|);
  }

  /** The ip of `Nmap scan report for <name> (<address>)`, for a name
      without whitespace: the address, unless it is empty, in which case the
      name (nmap-parser.ts:27, 31). */
  lemma IpWithAddress(name: string, sep: string, address: string)
    requires NoSpace(name)
    requires |sep| > 0 && AllSpace(sep)
    requires NoTerminator(address)
    ensures var c := Match(Prefix + name + sep + "(" + address + ")");
      c.Some? && Ip(c.value) == if address != "" then address else name
  {
    NameAndAddress(name, sep, address);
  }

  /** The ip of `Nmap scan report for <name>`, for a name without whitespace:
      the name itself. */
  lemma IpWithoutAddress(name: string)
    requires NoSpace(name)
    ensures var c := Match(Prefix + name); c.Some? && Ip(c.value) == name
  {
    NameOnly(name);
  }
}
