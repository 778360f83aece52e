/** The string operations the server borrows from Go's library. A string is a sequence of bytes;
    letter case is ASCII only. */
module Text {

  datatype Option<+T> = None | Some(value: T)

  /** The first index of c, or the length when c is absent. */
  function IndexOf(s: string, c: char): (i: nat)
    ensures i <= |s|
    ensures i < |s| ==> s[i] == c
    ensures forall k :: 0 <= k < i ==> s[k] != c
  {
    if s == "" || s[0] == c then 0 else 1 + IndexOf(s[1..], c)
  }

  lemma IndexOfUnique(s: string, c: char, i: nat)
    requires i < |s| && s[i] == c && forall k :: 0 <= k < i ==> s[k] != c
    ensures IndexOf(s, c) == i
  {
  }

  predicate ContainsAny(s: string, chars: string) {
    exists i :: 0 <= i < |s| && s[i] in chars
  }

  predicate HasPrefix(s: string, prefix: string) {
    prefix <= s
  }

  function Split(s: string, sep: char): (parts: seq<string>)
    ensures |parts| >= 1
    decreases |s|
  {
    var i := IndexOf(s, sep);
    if i == |s| then [s] else [s[..i]] + Split(s[i + 1..], sep)
  }

  lemma {:induction false} SplitParts(s: string, sep: char)
    ensures forall p :: p in Split(s, sep) ==> sep !in p
    decreases |s|
  {
    var i := IndexOf(s, sep);
    if i < |s| {
      SplitParts(s[i + 1..], sep);
    }
  }

  function Join(parts: seq<string>, sep: string): string {
    if parts == [] then ""
    else if |parts| == 1 then parts[0]
    else parts[0] + sep + Join(parts[1..], sep)
  }

  lemma {:induction false} JoinSplit(s: string, sep: char)
    ensures Join(Split(s, sep), [sep]) == s
    decreases |s|
  {
    var i := IndexOf(s, sep);
    if i < |s| {
      JoinSplit(s[i + 1..], sep);
      JoinCons(s[..i], Split(s[i + 1..], sep), [sep]);
      CutInThree(s, i, 1);
      assert s[i..][..1] == [sep] && s[i..][1..] == s[i + 1..];
      hide Join, Split;
    }
  }

  lemma JoinCons(first: string, parts: seq<string>, sep: string)
    requires parts != []
    ensures Join([first] + parts, sep) == first + sep + Join(parts, sep)
  {
    assert ([first] + parts)[1..] == parts;
  }

  lemma {:induction false} SplitJoin(parts: seq<string>, sep: char)
    requires parts != []
    requires forall p :: p in parts ==> sep !in p
    ensures Split(Join(parts, [sep]), sep) == parts
  {
    var s := Join(parts, [sep]);
    if |parts| == 1 {
      assert s in parts;
    } else {
      SplitJoin(parts[1..], sep);
      assert parts[0] in parts && s[..|parts[0]|] == parts[0];
      IndexOfUnique(s, sep, |parts[0]|);
      assert s[|parts[0]| + 1..] == Join(parts[1..], [sep]);
    }
  }

  function TrimLeft(s: string, cut: string): (r: string)
    ensures |r| <= |s| && r == s[|s| - |r|..]
    ensures forall i :: 0 <= i < |s| - |r| ==> s[i] in cut
    ensures r != "" ==> r[0] !in cut
  {
    if s != "" && s[0] in cut then TrimLeft(s[1..], cut) else s
  }

  function TrimRight(s: string, cut: string): (r: string)
    ensures |r| <= |s| && r == s[..|r|]
    ensures forall i :: |r| <= i < |s| ==> s[i] in cut
    ensures r != "" ==> r[|r| - 1] !in cut
  {
    if s != "" && s[|s| - 1] in cut then
      var r := TrimRight(s[..|s| - 1], cut);
      assert r == s[..|s| - 1][..|r|] == s[..|r|];
      r
    else s
  }

  predicate IsTrimmed(s: string, cut: string) {
    s == "" || (s[0] !in cut && s[|s| - 1] !in cut)
  }

  function Trim(s: string, cut: string): (r: string)
    ensures IsTrimmed(r, cut)
  {
    var left := TrimLeft(s, cut);
    var r := TrimRight(left, cut);
    assert r != "" ==> r[0] == left[0];
    r
  }

  lemma {:induction false} TrimmedByCut(s: string, cut: string)
    requires s != "" && forall i :: 0 <= i < |s| ==> s[i] in cut
    ensures TrimLeft(s, cut) == ""
  {
    if |s| > 1 {
      TrimmedByCut(s[1..], cut);
    }
  }

  lemma {:induction false} TrimLeftPadding(pad: string, s: string, cut: string)
    requires forall i :: 0 <= i < |pad| ==> pad[i] in cut
    ensures TrimLeft(pad + s, cut) == TrimLeft(s, cut)
  {
    if pad == "" {
      assert pad + s == s;
    } else {
      assert (pad + s)[1..] == pad[1..] + s;
      TrimLeftPadding(pad[1..], s, cut);
    }
  }

  lemma {:induction false} TrimRightPadding(s: string, pad: string, cut: string)
    requires forall i :: 0 <= i < |pad| ==> pad[i] in cut
    ensures TrimRight(s + pad, cut) == TrimRight(s, cut)
  {
    if pad == "" {
      assert s + pad == s;
    } else {
      var n := |pad| - 1;
      assert (s + pad)[..|s| + n] == s + pad[..n];
      assert (s + pad)[|s| + n] == pad[n];
      TrimRightPadding(s, pad[..n], cut);
    }
  }

  /** Trimming removes exactly the padding put around a trimmed string. */
  lemma TrimPadding(before: string, s: string, after: string, cut: string)
    requires forall i :: 0 <= i < |before| ==> before[i] in cut
    requires forall i :: 0 <= i < |after| ==> after[i] in cut
    requires IsTrimmed(s, cut)
    ensures Trim(before + s + after, cut) == s
  {
    assert before + s + after == before + (s + after);
    TrimLeftPadding(before, s + after, cut);
    if s == "" {
      assert s + after == after;
      if after != "" {
        TrimmedByCut(after, cut);
      }
    } else {
      assert (s + after)[0] == s[0];
      TrimRightPadding(s, after, cut);
    }
  }

  lemma Glued(a: string, b: string, c: string)
    ensures a + b + c == a + (b + c)
    ensures (a + b + c)[..|a|] == a
    ensures (a + b + c)[|a|..] == b + c
    ensures (a + b + c)[|a| + |b|..] == c
    ensures forall i :: 0 <= i < |a| ==> (a + b + c)[i] == a[i]
    ensures forall i :: 0 <= i < |b| ==> (a + b + c)[|a| + i] == b[i]
  {
  }

  lemma Regrouped<T>(a: seq<T>, b: seq<T>, c: seq<T>)
    ensures a + (b + c) == a + b + c
  {
  }

  lemma Regroup(a: string, b: string, c: string, d: string)
    ensures a + b + c + d == a + (b + (c + d))
  {
  }

  lemma Regroup5(a: string, b: string, c: string, d: string, e: string)
    ensures a + b + c + d + e == a + (b + c + d) + e
  {
  }

  lemma CutInThree(s: string, i: nat, n: nat)
    requires i + n <= |s|
    ensures s == s[..i] + s[i..][..n] + s[i..][n..]
  {
  }

  lemma CutPadding(s: string, left: string, t: string, cut: string) returns (before: string, after: string)
    requires |left| <= |s| && left == s[|s| - |left|..]
    requires forall i :: 0 <= i < |s| - |left| ==> s[i] in cut
    requires |t| <= |left| && t == left[..|t|]
    requires forall i :: |t| <= i < |left| ==> left[i] in cut
    ensures s == before + t + after
    ensures forall i :: 0 <= i < |before| ==> before[i] in cut
    ensures forall i :: 0 <= i < |after| ==> after[i] in cut
  {
    before, after := s[..|s| - |left|], left[|t|..];
    CutInThree(s, |before|, |t|);
  }

  /** A trimmed string together with the padding around it. */
  lemma TrimSplits(s: string, cut: string) returns (before: string, after: string)
    ensures s == before + Trim(s, cut) + after
    ensures forall i :: 0 <= i < |before| ==> before[i] in cut
    ensures forall i :: 0 <= i < |after| ==> after[i] in cut
  {
    before, after := CutPadding(s, TrimLeft(s, cut), Trim(s, cut), cut);
  }

  /** Go's strings.ReplaceAll: leftmost, non-overlapping. */
  function ReplaceAll(s: string, from: string, to: string): string
    requires from != ""
    decreases |s|
  {
    if s == "" then ""
    else if from <= s then to + ReplaceAll(s[|from|..], from, to)
    else [s[0]] + ReplaceAll(s[1..], from, to)
  }

  function UpperChar(c: char): char {
    if 'a' <= c <= 'z' then (c as int - 32) as char else c
  }

  function ToUpper(s: string): (r: string)
    ensures |r| == |s|
    ensures forall i :: 0 <= i < |s| ==> r[i] == UpperChar(s[i])
  {
    seq(|s|, i requires 0 <= i < |s| => UpperChar(s[i]))
  }

  predicate EqualFold(a: string, b: string) {
    ToUpper(a) == ToUpper(b)
  }

  /** One letter, or a lower-case letter and its capital. */
  predicate SameLetter(a: char, b: char) {
    a == b || ('a' <= a <= 'z' && b as int == a as int - 32) || ('a' <= b <= 'z' && a as int == b as int - 32)
  }

  /** Folding ignores the case of letters and nothing else. */
  lemma EqualFoldIff(a: string, b: string)
    ensures EqualFold(a, b) <==> |a| == |b| && forall i :: 0 <= i < |a| ==> SameLetter(a[i], b[i])
  {
    if EqualFold(a, b) {
      forall i | 0 <= i < |a| ensures SameLetter(a[i], b[i]) {
        assert ToUpper(a)[i] == ToUpper(b)[i];
      }
    }
  }

  /** Upper-casing leaves no lower-case letter and changes nothing but case. */
  lemma ToUpperIs(s: string)
    ensures EqualFold(ToUpper(s), s) && forall i :: 0 <= i < |s| ==> !('a' <= ToUpper(s)[i] <= 'z')
  {
    assert ToUpper(ToUpper(s)) == ToUpper(s);
  }

  predicate IsDigit(c: char) {
    '0' <= c <= '9'
  }

  predicate AllDigits(s: string) {
    forall i :: 0 <= i < |s| ==> IsDigit(s[i])
  }

  /** The number a digit string denotes, most significant digit first. */
  function DecimalValue(s: string): nat
    requires AllDigits(s)
  {
    if s == "" then 0
    else 10 * DecimalValue(s[..|s| - 1]) + (s[|s| - 1] as int - '0' as int)
  }

  function FormatDecimal(n: nat): (s: string)
    ensures s != "" && AllDigits(s)
  {
    if n < 10 then [('0' as int + n) as char]
    else FormatDecimal(n / 10) + [('0' as int + n % 10) as char]
  }

  lemma {:induction false} DecimalRoundTrip(n: nat)
    ensures DecimalValue(FormatDecimal(n)) == n
  {
    var s := FormatDecimal(n);
    if n < 10 {
      assert s[..0] == "";
    } else {
      DecimalRoundTrip(n / 10);
      assert s[..|s| - 1] == FormatDecimal(n / 10);
    }
  }

  lemma {:induction false} DecimalIsCanonical(n: nat)
    ensures FormatDecimal(n)[0] == '0' ==> n == 0 && FormatDecimal(n) == "0"
  {
    if n >= 10 {
      DecimalIsCanonical(n / 10);
      assert FormatDecimal(n)[0] == FormatDecimal(n / 10)[0];
    }
  }

  function Concat(parts: seq<string>): string {
    if parts == [] then "" else parts[0] + Concat(parts[1..])
  }
}
