/**
 * String primitives the parser relies on, stated the way JavaScript defines
 * them: the whitespace class shared by the regular-expression escape `\s`
 * and by `String.prototype.trimEnd`/`trim`, the line terminators that the
 * regular-expression wildcard `.` refuses, `split('\n')`, `startsWith` and
 * `includes`.
 */
module Text {

  datatype Option<T> = None | Some(value: T)

  /** JavaScript's WhiteSpace and LineTerminator code points: the class `\s`
      and the characters `trim`/`trimEnd` remove. */
  predicate IsSpace(c: char) {
    c == ' ' || c == '\t' || c == '\n' || c == '\U{B}' || c == '\U{C}' || c == '\r'
    || c == '\U{A0}' || c == '\U{1680}' || ('\U{2000}' <= c <= '\U{200A}')
    || c == '\U{2028}' || c == '\U{2029}' || c == '\U{202F}' || c == '\U{205F}'
    || c == '\U{3000}' || c == '\U{FEFF}'
  }

  /** Among ASCII characters, `\s` is the space and tab through carriage
      return; the rest of the class lies beyond ASCII. */
  lemma AsciiSpace(c: char)
    requires c as int < 0x80
    ensures IsSpace(c) <==> c == ' ' || '\t' <= c <= '\r'
  {
  }

  /** `\d`. */
  predicate IsDigit(c: char) {
    '0' <= c <= '9'
  }

  /** `[a-zA-Z0-9_-]`. */
  predicate IsWordChar(c: char) {
    ('a' <= c <= 'z') || ('A' <= c <= 'Z') || IsDigit(c) || c == '_' || c == '-'
  }

  /** The characters the wildcard `.` does not match (no `s` flag). */
  predicate IsLineTerminator(c: char)
    ensures IsLineTerminator(c) ==> IsSpace(c)
  {
    c == '\n' || c == '\r' || c == '\U{2028}' || c == '\U{2029}'
  }

  /** The character classes the patterns use: `\s`, `[^\s]`, `\d`,
      `[a-zA-Z0-9_-]` and `.`. */
  datatype Class = Space | NonSpace | Digit | Word | NotTerminator

  predicate In(c: char, k: Class) {
    match k
    case Space => IsSpace(c)
    case NonSpace => !IsSpace(c)
    case Digit => IsDigit(c)
    case Word => IsWordChar(c)
    case NotTerminator => !IsLineTerminator(c)
  }

  /** Every character of `s` is in the class `k`. */
  predicate All(s: string, k: Class) {
    forall i :: 0 <= i < |s| ==> In(s[i], k)
  }

  predicate NoTerminator(s: string) {
    All(s, NotTerminator)
  }

  predicate AllSpace(s: string) {
    All(s, Space)
  }

  predicate NoSpace(s: string) {
    All(s, NonSpace)
  }

  /** No whitespace at either end: what `trim` leaves. */
  predicate Trimmed(s: string) {
    s == [] || (!IsSpace(s[0]) && !IsSpace(s[|s| - 1]))
  }

  /** Length of the longest prefix of `s` in the class `p`: what a greedy
      `[class]*` consumes. */
  function RunLength(s: string, p: Class): (n: nat)
    ensures n <= |s|
    ensures All(s[..n], p)
    ensures n < |s| ==> !In(s[n], p)
  {
    if s == [] || !In(s[0], p) then 0
    else
      var n := 1 + RunLength(s[1..], p);
      assert forall i :: 1 <= i < n ==> s[..n][i] == s[1..][..n - 1][i - 1];
      n
  }

  /** A run that stops where `p` fails is exactly as long as the part that satisfies `p`. */
  lemma {:induction false} RunLengthOf(x: string, y: string, p: Class)
    requires All(x, p)
    requires y == [] || !In(y[0], p)
    ensures RunLength(x + y, p) == |x|
  {
    if x == [] {
      assert x + y == y;
    } else {
      assert (x + y)[0] == x[0];
      assert (x + y)[1..] == x[1..] + y;
      RunLengthOf(x[1..], y, p);
    }
  }

  /** Splits `s` into the longest prefix in the class `p` and the rest. */
  function Span(s: string, p: Class): (r: (string, string))
    ensures r.0 + r.1 == s && All(r.0, p) && (r.1 == [] || !In(r.1[0], p))
  {
    var n := RunLength(s, p);
    assert s[..n] + s[n..] == s;
    (s[..n], s[n..])
  }

  /** The split is determined: a prefix in the class followed by a character
      outside it is the span. */
  lemma SpanOf(x: string, y: string, p: Class)
    requires All(x, p) && (y == [] || !In(y[0], p))
    ensures Span(x + y, p) == (x, y)
  {
    RunLengthOf(x, y, p);
    assert (x + y)[..|x|] == x && (x + y)[|x|..] == y;
  }

  /** No character belongs to both classes. */
  predicate Excludes(k1: Class, k2: Class) {
    match (k1, k2)
    case (Space, NonSpace) => true
    case (NonSpace, Space) => true
    case (Space, Word) => true
    case (Word, Space) => true
    case (Space, Digit) => true
    case (Digit, Space) => true
    case _ => false
  }

  lemma ExcludesSound(k1: Class, k2: Class, c: char)
    requires Excludes(k1, k2) && In(c, k2)
    ensures !In(c, k1)
  {
  }

  /** A word character is not whitespace. */
  lemma WordIsNonSpace(s: string)
    requires All(s, Word)
    ensures NoSpace(s)
  {
    forall i | 0 <= i < |s| ensures !IsSpace(s[i]) {
      ExcludesSound(Space, Word, s[i]);
    }
  }

  lemma AllConcat(a: string, b: string, k: Class)
    requires All(a, k) && All(b, k)
    ensures All(a + b, k)
  {
  }

  /** A run that cannot be extended is determined by the string it starts. */
  lemma SpanUnique(x1: string, y1: string, x2: string, y2: string, k: Class)
    requires All(x1, k) && (y1 == [] || !In(y1[0], k))
    requires All(x2, k) && (y2 == [] || !In(y2[0], k))
    requires x1 + y1 == x2 + y2
    ensures x1 == x2 && y1 == y2
  {
    SpanOf(x1, y1, k);
    SpanOf(x2, y2, k);
  }

  function Concat(ss: seq<string>): string {
    if ss == [] then "" else ss[0] + Concat(ss[1..])
  }

  /** Matching `k1+ k2+ ... kn+` greedily at the start of `s`: the runs and
      the rest of `s`. It fails when a run would be empty. */
  function Runs(s: string, ks: seq<Class>): (r: Option<(seq<string>, string)>)
    ensures r.Some? ==> |r.value.0| == |ks| && Concat(r.value.0) + r.value.1 == s
    ensures r.Some? ==> forall i :: 0 <= i < |ks| ==> |r.value.0[i]| > 0 && All(r.value.0[i], ks[i])
    ensures r.Some? && |ks| > 0 ==> r.value.1 == [] || !In(r.value.1[0], ks[|ks| - 1])
  {
    if ks == [] then Some(([], s))
    else
      var (run, rest) := Span(s, ks[0]);
      if run == [] then None
      else match Runs(rest, ks[1..])
        case None => None
        case Some((runs, tail)) =>
          assert Concat([run] + runs) == run + Concat(runs) by {
            assert ([run] + runs)[1..] == runs;
          }
          Some(([run] + runs, tail))
  }

  /** Greedy matching gives back non-empty runs of pairwise exclusive
      neighbouring classes. */
  lemma {:induction false} RunsOf(runs: seq<string>, rest: string, ks: seq<Class>)
    requires |runs| == |ks|
    requires forall i :: 0 <= i < |ks| ==> |runs[i]| > 0 && All(runs[i], ks[i])
    requires forall i :: 0 <= i < |ks| - 1 ==> Excludes(ks[i], ks[i + 1])
    requires |ks| > 0 ==> rest == [] || !In(rest[0], ks[|ks| - 1])
    ensures Runs(Concat(runs) + rest, ks) == Some((runs, rest))
  {
    if ks != [] {
      var after := Concat(runs[1..]) + rest;
      assert Concat(runs) + rest == runs[0] + after;
      if |ks| > 1 {
        assert after[0] == runs[1][0];
        ExcludesSound(ks[0], ks[1], after[0]);
      }
      SpanOf(runs[0], after, ks[0]);
      RunsOf(runs[1..], rest, ks[1..]);
      assert [runs[0]] + runs[1..] == runs;
    } else {
      assert Concat(runs) + rest == rest;
    }
  }

  /** The number of whitespace-separated fields of `s`: its maximal runs of
      non-whitespace characters. */
  function CountFields(s: string): nat
    decreases |s|
  {
    if s == [] then 0
    else if IsSpace(s[0]) then CountFields(s[1..])
    else 1 + CountFields(s[RunLength(s, NonSpace)..])
  }

  /** Leading whitespace does not start a field. */
  lemma {:induction false} CountFieldsSkip(sp: string, rest: string)
    requires AllSpace(sp)
    ensures CountFields(sp + rest) == CountFields(rest)
  {
    if sp != [] {
      assert (sp + rest)[1..] == sp[1..] + rest;
      CountFieldsSkip(sp[1..], rest);
    } else {
      assert sp + rest == rest;
    }
  }

  /** A non-empty word followed by whitespace or nothing is one field. */
  lemma CountFieldsWord(w: string, rest: string)
    requires |w| > 0 && NoSpace(w)
    requires rest == [] || IsSpace(rest[0])
    ensures CountFields(w + rest) == 1 + CountFields(rest)
  {
    RunLengthOf(w, rest, NonSpace);
    assert (w + rest)[0] == w[0];
    assert (w + rest)[|w|..] == rest;
  }

  /** `s.trimEnd()`. */
  function TrimEnd(s: string): (r: string)
    ensures |r| <= |s| && r == s[..|r|]
    ensures r == [] || !IsSpace(r[|r| - 1])
    ensures AllSpace(s[|r|..])
  {
    if s != [] && IsSpace(s[|s| - 1]) then
      var r := TrimEnd(s[..|s| - 1]);
      assert s[|r|..] == s[..|s| - 1][|r|..] + [s[|s| - 1]];
      r
    else s
  }

  /** What a greedy `\s*` skips: `s` without its leading whitespace. */
  function TrimStart(s: string): (r: string)
    ensures |r| <= |s| && r == s[|s| - |r|..]
    ensures r == [] || !IsSpace(r[0])
    ensures AllSpace(s[..|s| - |r|])
  {
    if s != [] && IsSpace(s[0]) then TrimStart(s[1..]) else s
  }

  /** `s.trim()`. */
  function Trim(s: string): (r: string)
    ensures |r| <= |s| && Trimmed(r)
  {
    TrimStart(TrimEnd(s))
  }

  /** `trimEnd` removes exactly a whitespace tail. */
  lemma {:induction false} TrimEndOf(a: string, w: string)
    requires a == [] || !IsSpace(a[|a| - 1])
    requires AllSpace(w)
    ensures TrimEnd(a + w) == a
  {
    if w != [] {
      assert (a + w)[..|a + w| - 1] == a + w[..|w| - 1];
      TrimEndOf(a, w[..|w| - 1]);
    } else {
      assert a + w == a;
    }
  }

  /** A greedy `\s*` skips exactly a whitespace head. */
  lemma {:induction false} TrimStartOf(w: string, a: string)
    requires AllSpace(w)
    requires a == [] || !IsSpace(a[0])
    ensures TrimStart(w + a) == a
  {
    if w != [] {
      assert (w + a)[1..] == w[1..] + a;
      TrimStartOf(w[1..], a);
    } else {
      assert w + a == a;
    }
  }

  /** `trim` removes exactly the surrounding whitespace: it inverts padding. */
  lemma TrimOf(w1: string, x: string, w2: string)
    requires AllSpace(w1) && AllSpace(w2) && Trimmed(x)
    ensures Trim(w1 + x + w2) == x
  {
    if x == [] {
      assert w1 + x + w2 == [] + (w1 + w2);
      TrimEndOf([], w1 + w2);
      assert TrimStart([]) == [];
    } else {
      TrimEndOf(w1 + x, w2);
      TrimStartOf(w1, x);
    }
  }

  /** What a greedy `.*` consumes: the longest prefix without a line terminator. */
  function UpToTerminator(s: string): (r: string)
    ensures |r| <= |s| && r == s[..|r|] && NoTerminator(r)
    ensures |r| < |s| ==> IsLineTerminator(s[|r|])
  {
    s[..RunLength(s, NotTerminator)]
  }

  predicate StartsWith(s: string, prefix: string) {
    |prefix| <= |s| && s[..|prefix|] == prefix
  }

  /** `s.includes(t)`. */
  predicate Contains(s: string, t: string)
    decreases |s|
  {
    StartsWith(s, t) || (s != [] && Contains(s[1..], t))
  }

  /** `includes` finds `t` at some index of `s`. */
  lemma {:induction false} ContainsAt(s: string, t: string)
    ensures Contains(s, t) <==> exists i :: 0 <= i <= |s| && StartsWith(s[i..], t)
    decreases |s|
  {
    if StartsWith(s, t) {
      assert s[0..] == s;
    } else if s == [] {
      assert forall i :: 0 <= i <= |s| ==> s[i..] == s;
    } else {
      ContainsAt(s[1..], t);
      assert forall i :: 1 <= i <= |s| ==> s[1..][i - 1..] == s[i..];
      if Contains(s[1..], t) {
        var i :| 0 <= i <= |s[1..]| && StartsWith(s[1..][i..], t);
        assert s[1..][i..] == s[i + 1..];
      } else {
        forall i | 0 <= i <= |s| ensures !StartsWith(s[i..], t) {
          if i == 0 {
            assert s[0..] == s;
          } else {
            assert s[1..][i - 1..] == s[i..];
          }
        }
      }
    }
  }

  /** Index of the first occurrence of `c` in `s`. */
  function FirstIndex(s: string, c: char): (r: Option<nat>)
    ensures r.None? ==> c !in s
    ensures r.Some? ==> r.value < |s| && s[r.value] == c && c !in s[..r.value]
  {
    if s == [] then None
    else if s[0] == c then Some(0)
    else match FirstIndex(s[1..], c)
      case None => None
      case Some(i) => Some(i + 1)
  }

  /** The first occurrence is found wherever it is. */
  lemma {:induction false} FirstIndexAt(s: string, c: char, i: nat)
    requires i < |s| && s[i] == c && c !in s[..i]
    ensures FirstIndex(s, c) == Some(i)
  {
    if i > 0 {
      assert s[1..][..i - 1] == s[..i][1..];
      FirstIndexAt(s[1..], c, i - 1);
    }
  }

  /** `trim` only removes characters. */
  lemma TrimChars(s: string)
    ensures forall c :: c in Trim(s) ==> c in s
  {
    var e := TrimEnd(s);
    assert forall c :: c in e ==> c in s;
  }

  /** `trim` keeps a class that holds everywhere. */
  lemma TrimAll(s: string, k: Class)
    requires All(s, k)
    ensures All(Trim(s), k)
  {
    var e := TrimEnd(s);
    assert All(e, k);
  }

  /** `trim` of a string already without surrounding whitespace. */
  lemma TrimTrimmed(s: string)
    requires Trimmed(s)
    ensures Trim(s) == s
  {
    TrimOf([], s, []);
    assert [] + s + [] == s;
  }

  /** `.*` takes all of a string without line terminators. */
  lemma UpToTerminatorAll(s: string)
    requires NoTerminator(s)
    ensures UpToTerminator(s) == s
  {
    RunLengthOf(s, [], NotTerminator);
    assert s + [] == s;
  }

  /** Joins lines with `'\n'`: the inverse of `SplitLines`. */
  function JoinLines(lines: seq<string>): string
    requires |lines| > 0
  {
    if |lines| == 1 then lines[0] else lines[0] + "\n" + JoinLines(lines[1..])
  }

  /** `s.split('\n')`: always at least one piece (the empty string gives `[""]`),
      no piece contains `'\n'`, and joining the pieces gives `s` back. */
  function SplitLines(s: string): (lines: seq<string>)
    ensures |lines| > 0
    ensures forall i :: 0 <= i < |lines| ==> '\n' !in lines[i]
    ensures JoinLines(lines) == s
  {
    if s == [] then [[]]
    else
      var rest := SplitLines(s[1..]);
      if s[0] == '\n' then [[]] + rest
      else [[s[0]] + rest[0]] + rest[1..]
  }

  /** Splitting a join gives the pieces back when none holds a `'\n'`. */
  lemma {:induction false} SplitJoin(lines: seq<string>)
    requires |lines| > 0
    requires forall i :: 0 <= i < |lines| ==> '\n' !in lines[i]
    ensures SplitLines(JoinLines(lines)) == lines
  {
    if |lines| == 1 {
      SplitNoNewline(lines[0]);
    } else {
      SplitJoin(lines[1..]);
      SplitHeadThenNewline(lines[0], JoinLines(lines[1..]));
    }
  }

  lemma {:induction false} SplitNoNewline(s: string)
    requires '\n' !in s
    ensures SplitLines(s) == [s]
  {
    if s != [] {
      assert '\n' !in s[1..];
      SplitNoNewline(s[1..]);
    }
  }

  lemma {:induction false} SplitHeadThenNewline(head: string, tail: string)
    requires '\n' !in head
    ensures SplitLines(head + "\n" + tail) == [head] + SplitLines(tail)
  {
    if head == [] {
      assert head + "\n" + tail == ['\n'] + tail;
      assert (head + "\n" + tail)[1..] == tail;
    } else {
      assert (head + "\n" + tail)[1..] == head[1..] + "\n" + tail;
      assert '\n' !in head[1..];
      SplitHeadThenNewline(head[1..], tail);
      assert [head[0]] + head[1..] == head;
    }
  }
}
