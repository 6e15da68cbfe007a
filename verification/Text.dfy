/** Strings as the client's code sees them: the character classes of its regular
    expressions, and the string operations it calls (`trim`, `split`, `indexOf`,
    `replace` with a character class, `slice`, `padEnd`). */
module Text {

  datatype Option<+T> = None | Some(value: T)

  datatype Result<+T, +E> = Ok(value: T) | Err(error: E)

  // ---------------------------------------------------------------- characters

  predicate IsDigit(c: char) {
    '0' <= c <= '9'
  }

  /** The white space of ECMAScript's `trim` and `\s`. */
  predicate IsSpace(c: char) {
    || '\t' <= c <= '\r'
    || c == ' '
    || c == '\U{a0}'
    || c == '\U{1680}'
    || '\U{2000}' <= c <= '\U{200a}'
    || c in {'\U{2028}', '\U{2029}', '\U{202f}', '\U{205f}', '\U{3000}', '\U{feff}'}
  }

  predicate AllDigits(s: string) {
    forall i :: 0 <= i < |s| ==> IsDigit(s[i])
  }

  predicate NoSpaces(s: string) {
    forall i :: 0 <= i < |s| ==> !IsSpace(s[i])
  }

  // -------------------------------------------------------------------- filter

  /** `s.replace(/[^...]/g, '')`: what is left when only `keep` survives. */
  function Filter(s: string, keep: char -> bool): string {
    if s == "" then ""
    else if keep(s[0]) then [s[0]] + Filter(s[1..], keep)
    else Filter(s[1..], keep)
  }

  lemma {:induction false} FilterKeeps(s: string, keep: char -> bool)
    ensures forall i :: 0 <= i < |Filter(s, keep)| ==> keep(Filter(s, keep)[i])
  {
    if s != "" {
      FilterKeeps(s[1..], keep);
    }
  }

  lemma DigitsKept(s: string)
    ensures AllDigits(Filter(s, IsDigit))
  {
    FilterKeeps(s, IsDigit);
  }

  lemma {:induction false} FilterConcat(a: string, b: string, keep: char -> bool)
    ensures Filter(a + b, keep) == Filter(a, keep) + Filter(b, keep)
  {
    if a == "" {
      assert a + b == b;
    } else {
      assert (a + b)[1..] == a[1..] + b;
      FilterConcat(a[1..], b, keep);
    }
  }

  lemma {:induction false} FilterAll(s: string, keep: char -> bool)
    requires forall i :: 0 <= i < |s| ==> keep(s[i])
    ensures Filter(s, keep) == s
  {
    if s != "" {
      FilterAll(s[1..], keep);
    }
  }

  lemma {:induction false} FilterNone(s: string, keep: char -> bool)
    requires forall i :: 0 <= i < |s| ==> !keep(s[i])
    ensures Filter(s, keep) == ""
  {
    if s != "" {
      FilterNone(s[1..], keep);
    }
  }

  // ---------------------------------------------------------------------- trim

  function TrimStart(s: string): (r: string)
    ensures |r| <= |s| && r == s[|s| - |r|..]
    ensures r != "" ==> !IsSpace(r[0])
  {
    if s != "" && IsSpace(s[0]) then TrimStart(s[1..]) else s
  }

  function TrimEnd(s: string): (r: string)
    ensures |r| <= |s| && r == s[..|r|]
    ensures r != "" ==> !IsSpace(r[|r| - 1])
  {
    if s != "" && IsSpace(s[|s| - 1]) then TrimEnd(s[..|s| - 1]) else s
  }

  function Trim(s: string): (r: string)
    ensures r != "" ==> !IsSpace(r[0]) && !IsSpace(r[|r| - 1])
    ensures |r| <= |s|
  {
    TrimEnd(TrimStart(s))
  }

  lemma TrimTight(s: string)
    requires s != "" ==> !IsSpace(s[0]) && !IsSpace(s[|s| - 1])
    ensures Trim(s) == s
  {
  }

  lemma {:induction false} TrimStartPadded(pad: string, s: string)
    requires forall i :: 0 <= i < |pad| ==> IsSpace(pad[i])
    ensures TrimStart(pad + s) == TrimStart(s)
  {
    if pad == "" {
      assert pad + s == s;
    } else {
      assert (pad + s)[1..] == pad[1..] + s;
      TrimStartPadded(pad[1..], s);
    }
  }

  lemma {:induction false} TrimEndPadded(s: string, pad: string)
    requires forall i :: 0 <= i < |pad| ==> IsSpace(pad[i])
    ensures TrimEnd(s + pad) == TrimEnd(s)
  {
    if pad == "" {
      assert s + pad == s;
    } else {
      assert (s + pad)[..|s + pad| - 1] == s + pad[..|pad| - 1];
      TrimEndPadded(s, pad[..|pad| - 1]);
    }
  }

  /** Spaces around a tight string are exactly what `trim` takes off. */
  lemma TrimPadded(before: string, s: string, after: string)
    requires forall i :: 0 <= i < |before| ==> IsSpace(before[i])
    requires forall i :: 0 <= i < |after| ==> IsSpace(after[i])
    requires s != "" ==> !IsSpace(s[0]) && !IsSpace(s[|s| - 1])
    ensures Trim(before + s + after) == s
  {
    assert before + s + after == before + (s + after);
    TrimStartPadded(before, s + after);
    if s == "" {
      assert s + after == after + "";
      TrimStartPadded(after, "");
    } else {
      assert TrimStart(s + after) == s + after;
      TrimEndPadded(s, after);
    }
  }

  // --------------------------------------------------------- searching, cutting

  /** `s.indexOf(c)`, with the length of `s` where JavaScript answers -1. */
  function IndexOf(s: string, c: char): (i: nat)
    ensures i <= |s|
    ensures i < |s| ==> s[i] == c
    ensures forall j :: 0 <= j < i ==> s[j] != c
    ensures i < |s| <==> c in s
  {
    if s == "" || s[0] == c then 0 else 1 + IndexOf(s[1..], c)
  }

  lemma IndexOfUnique(s: string, c: char, i: nat)
    requires i < |s| && s[i] == c && forall j :: 0 <= j < i ==> s[j] != c
    ensures IndexOf(s, c) == i
  {
  }

  /** What stands before the first `c`: all of `s` when there is none. */
  function Before(s: string, c: char): (r: string)
    ensures c !in r && |r| <= |s| && r == s[..|r|]
  {
    s[..IndexOf(s, c)]
  }

  /** What stands after the first `c`: nothing when there is none. */
  function After(s: string, c: char): (r: string)
    ensures s == if c in s then Before(s, c) + [c] + r else Before(s, c)
    ensures c in s ==> |r| < |s|
    ensures c !in s ==> r == ""
  {
    if c in s then s[IndexOf(s, c) + 1..] else ""
  }

  lemma CutAt(w: string, c: char, r: string)
    requires c !in w
    ensures Before(w + [c] + r, c) == w && After(w + [c] + r, c) == r
  {
    var s := w + [c] + r;
    assert s[|w|] == c;
    assert forall j :: 0 <= j < |w| ==> s[j] == w[j];
    IndexOfUnique(s, c, |w|);
  }

  lemma CutNone(s: string, c: char)
    requires c !in s
    ensures Before(s, c) == s && After(s, c) == ""
  {
  }

  /** `s.split(c)`. */
  function Split(s: string, c: char): (parts: seq<string>)
    ensures |parts| > 0 && parts[0] == Before(s, c)
    ensures |parts| == 1 <==> c !in s
    ensures forall i :: 0 <= i < |parts| ==> c !in parts[i]
    decreases |s|
  {
    if c in s then [Before(s, c)] + Split(After(s, c), c) else [s]
  }

  lemma SplitCons(w: string, c: char, r: string)
    requires c !in w
    ensures Split(w + [c] + r, c) == [w] + Split(r, c)
  {
    CutAt(w, c, r);
  }

  /** `parts.join(sep)`. */
  function Join(parts: seq<string>, sep: string): string {
    if parts == [] then ""
    else if |parts| == 1 then parts[0]
    else parts[0] + sep + Join(parts[1..], sep)
  }

  /** `split` undoes `join` on parts that do not contain the separator. */
  lemma {:induction false} SplitJoin(parts: seq<string>, c: char)
    requires |parts| > 0
    requires forall i :: 0 <= i < |parts| ==> c !in parts[i]
    ensures Split(Join(parts, [c]), c) == parts
  {
    if |parts| == 1 {
      assert Join(parts, [c]) == parts[0];
      assert parts == [parts[0]];
    } else {
      SplitJoin(parts[1..], c);
      SplitCons(parts[0], c, Join(parts[1..], [c]));
      assert parts == [parts[0]] + parts[1..];
    }
  }

  function Repeat(c: char, n: nat): (r: string)
    ensures |r| == n && forall i :: 0 <= i < n ==> r[i] == c
  {
    seq(n, i => c)
  }

  // ------------------------------------------------------------- leading zeros

  /** `s.replace(/^0+(?=\d)/, '')`: the match is greedy and its lookahead keeps the
      last zero unless another digit follows it. */
  function StripZeros(s: string): (r: string)
    ensures |r| <= |s|
    ensures s == "" <==> r == ""
    ensures |r| > 1 && r[0] == '0' ==> !IsDigit(r[1])
  {
    if |s| > 1 && s[0] == '0' && IsDigit(s[1]) then StripZeros(s[1..]) else s
  }

  /** Only zeros go, and only from the front. */
  lemma {:induction false} StripZerosPrefix(s: string) returns (n: nat)
    ensures n + |StripZeros(s)| == |s|
    ensures s == Repeat('0', n) + StripZeros(s)
  {
    if |s| > 1 && s[0] == '0' && IsDigit(s[1]) {
      var m := StripZerosPrefix(s[1..]);
      n := m + 1;
      assert Repeat('0', n) == ['0'] + Repeat('0', m);
      assert s == [s[0]] + s[1..];
    } else {
      n := 0;
    }
  }

  lemma StripZerosDigits(s: string)
    requires AllDigits(s)
    ensures AllDigits(StripZeros(s))
    ensures |StripZeros(s)| > 1 ==> StripZeros(s)[0] != '0'
  {
    var n := StripZerosPrefix(s);
    var r := StripZeros(s);
    forall i | 0 <= i < |r| ensures IsDigit(r[i]) {
      assert r[i] == s[n + i];
    }
  }

  lemma {:induction false} StripZerosAppend(s: string, t: string)
    requires AllDigits(s)
    ensures StripZeros(StripZeros(s) + t) == StripZeros(s + t)
  {
    if |s| > 1 && s[0] == '0' && IsDigit(s[1]) {
      var rest := s[1..];
      forall i | 0 <= i < |rest| ensures IsDigit(rest[i]) {
        assert rest[i] == s[i + 1];
      }
      StripZerosAppend(rest, t);
      assert (s + t)[1..] == rest + t;
      assert (s + t)[0] == s[0] && (s + t)[1] == s[1];
    }
  }
}
