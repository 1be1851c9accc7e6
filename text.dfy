/**
  Text operations of Qt's QString that the device layer relies on, written out
  over `string` (a sequence of Unicode scalar values):
  contains / startsWith / endsWith, split with Qt::SkipEmptyParts,
  trimmed() (QChar::isSpace), the text before the first separator,
  decimal rendering of a natural number, and the key order of a QMap.
 */
module Text {

  // ---------------------------------------------------------------------------
  // Prefixes, suffixes, substrings
  // ---------------------------------------------------------------------------

  predicate StartsWith(s: string, prefix: string) {
    |prefix| <= |s| && s[..|prefix|] == prefix
  }

  predicate EndsWith(s: string, suffix: string) {
    |suffix| <= |s| && s[|s| - |suffix|..] == suffix
  }

  /** QString::contains: `sub` occurs somewhere in `s` (the empty string occurs everywhere). */
  predicate Contains(s: string, sub: string)
    decreases |s|
  {
    StartsWith(s, sub) || (|s| > 0 && Contains(s[1..], sub))
  }

  /** Text appended after `s` keeps every occurrence in `s`. */
  lemma {:induction false} ContainsAppend(s: string, b: string, sub: string)
    requires Contains(s, sub)
    ensures Contains(s + b, sub)
    decreases |s|
  {
    if !StartsWith(s, sub) {
      assert (s + b)[1..] == s[1..] + b;
      ContainsAppend(s[1..], b, sub);
    } else {
      assert (s + b)[..|sub|] == s[..|sub|];
    }
  }

  /** Text put in front of `s` keeps every occurrence in `s`. */
  lemma {:induction false} ContainsPrepend(a: string, s: string, sub: string)
    requires Contains(s, sub)
    ensures Contains(a + s, sub)
    decreases |a|
  {
    if a == [] {
      assert a + s == s;
    } else {
      assert (a + s)[1..] == a[1..] + s;
      ContainsPrepend(a[1..], s, sub);
    }
  }

  /** Whatever `s` contains, any text around it contains too. */
  lemma ContainsInfix(a: string, s: string, b: string, sub: string)
    requires Contains(s, sub)
    ensures Contains(a + s + b, sub)
  {
    ContainsAppend(s, b, sub);
    ContainsPrepend(a, s + b, sub);
    assert a + (s + b) == a + s + b;
  }

  /** A string that starts with `p` contains `p`. */
  lemma StartsWithContains(s: string, p: string)
    requires StartsWith(s, p)
    ensures Contains(s, p)
  {
  }

  /** A string shorter than `sub` cannot contain it. */
  lemma {:induction false} ShortNotContains(s: string, sub: string)
    requires |s| < |sub|
    ensures !Contains(s, sub)
    decreases |s|
  {
    if |s| > 0 {
      ShortNotContains(s[1..], sub);
    }
  }

  /** Concatenation regroups freely; stated once so that proofs need not rediscover it. */
  lemma SeqAssoc<T>(a: seq<T>, b: seq<T>, c: seq<T>)
    ensures (a + b) + c == a + (b + c)
  {
  }

  // ---------------------------------------------------------------------------
  // Character membership and removal
  // ---------------------------------------------------------------------------

  /** `s` with every occurrence of `c` taken out. */
  function Without(s: string, c: char): (r: string)
    ensures c !in r
    ensures |r| <= |s|
    decreases |s|
  {
    if s == [] then []
    else (if s[0] == c then [] else [s[0]]) + Without(s[1..], c)
  }

  lemma {:induction false} WithoutAppend(a: string, b: string, c: char)
    ensures Without(a + b, c) == Without(a, c) + Without(b, c)
    decreases |a|
  {
    if a == [] {
      assert a + b == b;
    } else {
      var head := if a[0] == c then [] else [a[0]];
      assert (a + b)[0] == a[0];
      assert (a + b)[1..] == a[1..] + b;
      WithoutAppend(a[1..], b, c);
      calc {
        Without(a + b, c);
        head + Without(a[1..] + b, c);
        head + (Without(a[1..], c) + Without(b, c));
        { SeqAssoc(head, Without(a[1..], c), Without(b, c)); }
        (head + Without(a[1..], c)) + Without(b, c);
        Without(a, c) + Without(b, c);
      }
    }
  }

  lemma {:induction false} WithoutAbsent(s: string, c: char)
    requires c !in s
    ensures Without(s, c) == s
    decreases |s|
  {
    if s != [] {
      WithoutAbsent(s[1..], c);
    }
  }

  /** Index of the first `c` in `s`, or |s| when there is none. */
  function IndexOf(s: string, c: char): (i: nat)
    ensures i <= |s|
    ensures i < |s| ==> s[i] == c
    ensures c !in s[..i]
    ensures i == |s| <==> c !in s
    decreases |s|
  {
    if s == [] then 0
    else if s[0] == c then 0
    else 1 + IndexOf(s[1..], c)
  }

  // ---------------------------------------------------------------------------
  // QString::split(c, Qt::SkipEmptyParts)
  // ---------------------------------------------------------------------------

  /** The non-empty pieces of `s` between occurrences of `sep`, in order. */
  function Split(s: string, sep: char): (parts: seq<string>)
    decreases |s|
  {
    var i := IndexOf(s, sep);
    if i == |s| then (if s == [] then [] else [s])
    else (if i == 0 then [] else [s[..i]]) + Split(s[i + 1..], sep)
  }

  function Concat(parts: seq<string>): string {
    if parts == [] then [] else parts[0] + Concat(parts[1..])
  }

  lemma {:induction false} ConcatAppend(p: seq<string>, q: seq<string>)
    ensures Concat(p + q) == Concat(p) + Concat(q)
  {
    if p == [] {
      assert p + q == q;
    } else {
      assert (p + q)[0] == p[0];
      assert (p + q)[1..] == p[1..] + q;
      ConcatAppend(p[1..], q);
    }
  }

  /** No piece of a split is empty, and no piece holds the separator. */
  lemma {:induction false} SplitPieces(s: string, sep: char)
    ensures forall k :: 0 <= k < |Split(s, sep)| ==> Split(s, sep)[k] != [] && sep !in Split(s, sep)[k]
    decreases |s|
  {
    var i := IndexOf(s, sep);
    if i < |s| {
      SplitPieces(s[i + 1..], sep);
    }
  }

  /** The pieces laid end to end are `s` with the separators taken out: split drops nothing else. */
  lemma {:induction false} SplitConcat(s: string, sep: char)
    ensures Concat(Split(s, sep)) == Without(s, sep)
    decreases |s|
  {
    var i := IndexOf(s, sep);
    if i == |s| {
      WithoutAbsent(s, sep);
      if s != [] {
        assert Concat([s]) == s + Concat([]);
      }
    } else {
      SplitStep(s, sep, i);
      SplitConcat(s[i + 1..], sep);
    }
  }

  /** Splitting and removing the separators both keep the text before the first separator and go on after it. */
  lemma SplitStep(s: string, sep: char, i: int)
    requires i == IndexOf(s, sep) && i < |s|
    ensures Concat(Split(s, sep)) == s[..i] + Concat(Split(s[i + 1..], sep))
    ensures Without(s, sep) == s[..i] + Without(s[i + 1..], sep)
  {
    var rest := s[i + 1..];
    var pre := s[..i];
    assert Concat(Split(s, sep)) == pre + Concat(Split(rest, sep)) by {
      var head: seq<string> := if i == 0 then [] else [pre];
      assert Split(s, sep) == head + Split(rest, sep);
      ConcatAppend(head, Split(rest, sep));
      assert Concat(head) == pre;
    }
    Pivot(s, i);
    assert s == pre + [sep] + rest;
    WithoutAround(pre, rest, sep);
  }

  /** Removing separators from a separator-free text, a separator and a rest leaves the text and the cleaned rest. */
  lemma WithoutAround(pre: string, rest: string, sep: char)
    requires sep !in pre
    ensures Without(pre + [sep] + rest, sep) == pre + Without(rest, sep)
  {
    WithoutAppend(pre + [sep], rest, sep);
    WithoutAppend(pre, [sep], sep);
    WithoutAbsent(pre, sep);
    assert [sep][1..] == [];
    calc {
      Without(pre + [sep] + rest, sep);
      Without(pre + [sep], sep) + Without(rest, sep);
      (Without(pre, sep) + Without([sep], sep)) + Without(rest, sep);
      (pre + []) + Without(rest, sep);
      { assert pre + [] == pre; }
      pre + Without(rest, sep);
    }
  }

  /** A text is what comes before position i, the character there, and what follows. */
  lemma Pivot(s: string, i: int)
    requires 0 <= i < |s|
    ensures s == s[..i] + [s[i]] + s[i + 1..]
  {
    assert s[..i] + [s[i]] == s[..i + 1];
    assert s[..i + 1] + s[i + 1..] == s;
  }

  /** A leading token without the separator comes off as the first piece. */
  lemma SplitToken(token: string, sep: char, rest: string)
    requires token != [] && sep !in token
    ensures Split(token + [sep] + rest, sep) == [token] + Split(rest, sep)
  {
    var s := token + [sep] + rest;
    assert s[..|token|] == token;
    assert s[|token|] == sep;
    assert IndexOf(s, sep) == |token| by {
      IndexOfFirst(s, sep, |token|);
    }
    assert s[|token| + 1..] == rest;
  }

  /** A non-empty text without the separator is one piece. */
  lemma SplitWhole(token: string, sep: char)
    requires token != [] && sep !in token
    ensures Split(token, sep) == [token]
  {
  }

  /** Separators in front of a text are skipped. */
  lemma SplitLeadingSep(sep: char, rest: string)
    ensures Split([sep] + rest, sep) == Split(rest, sep)
  {
    assert ([sep] + rest)[1..] == rest;
  }

  /** A separator at the end of a text is skipped. */
  lemma {:induction false} SplitTrailing(s: string, sep: char)
    ensures Split(s + [sep], sep) == Split(s, sep)
    decreases |s|
  {
    var t := s + [sep];
    var i := IndexOf(s, sep);
    if i == |s| {
      IndexOfFirst(t, sep, |s|);
      assert t[|s| + 1..] == [];
      assert t[..|s|] == s;
    } else {
      assert t[..i] == s[..i];
      IndexOfFirst(t, sep, i);
      assert t[i + 1..] == s[i + 1..] + [sep];
      SplitTrailing(s[i + 1..], sep);
    }
  }

  /** Cutting the last `k` elements off `s` and off its tail: the suffixes agree, and the prefixes differ by the head. */
  lemma PeelFirst<T>(s: seq<T>, k: nat)
    requires k < |s|
    ensures s[|s| - k..] == s[1..][|s| - 1 - k..]
    ensures s[..|s| - k] == [s[0]] + s[1..][..|s| - 1 - k]
  {
  }

  /** Every character of `s` is `c`. */
  predicate AllOf(s: string, c: char) {
    forall i :: 0 <= i < |s| ==> s[i] == c
  }

  /** `s` with its leading separators skipped. */
  function SkipLeading(s: string, sep: char): (r: string)
    ensures |r| <= |s| && r == s[|s| - |r|..]
    ensures AllOf(s[..|s| - |r|], sep)
    ensures r == [] || r[0] != sep
    decreases |s|
  {
    if s != [] && s[0] == sep then
      var r := SkipLeading(s[1..], sep);
      PeelFirst(s, |r|);
      r
    else s
  }

  /** Separators in front of a text do not change its split. */
  lemma {:induction false} SplitLeadingSeps(pad: string, s: string, sep: char)
    requires AllOf(pad, sep)
    ensures Split(pad + s, sep) == Split(s, sep)
    decreases |pad|
  {
    if pad == [] {
      assert pad + s == s;
    } else {
      assert pad + s == [sep] + (pad[1..] + s);
      SplitLeadingSep(sep, pad[1..] + s);
      SplitLeadingSeps(pad[1..], s, sep);
    }
  }

  /** A leading token and a run of separators come off as the first piece. */
  lemma SplitTokenGap(token: string, gap: string, rest: string, sep: char)
    requires token != [] && sep !in token && gap != [] && AllOf(gap, sep)
    ensures Split(token + gap + rest, sep) == [token] + Split(rest, sep)
  {
    var after := gap[1..] + rest;
    assert gap == [sep] + gap[1..];
    assert token + gap + rest == token + [sep] + after;
    SplitToken(token, sep, after);
    SplitLeadingSeps(gap[1..], rest, sep);
  }

  /**
    When a split has a second piece, the first piece is the start of the text
    after its leading separators, and a separator follows it there: it is the
    whole first word.
   */
  lemma FirstPiece(s: string, sep: char)
    requires |Split(s, sep)| >= 2
    ensures var b := SkipLeading(s, sep);
            var w := Split(s, sep)[0];
            StartsWith(b, w) && |w| < |b| && b[|w|] == sep
  {
    var b := SkipLeading(s, sep);
    assert Split(s, sep) == Split(b, sep) by {
      var pad := s[..|s| - |b|];
      assert s == pad + b;
      SplitLeadingSeps(pad, b, sep);
    }
    FirstWordAt(b, sep);
  }

  /** In a text that does not start with the separator, a first piece with a successor runs up to the first separator. */
  lemma FirstWordAt(b: string, sep: char)
    requires |Split(b, sep)| >= 2 && (b == [] || b[0] != sep)
    ensures var w := Split(b, sep)[0];
            StartsWith(b, w) && |w| < |b| && b[|w|] == sep
  {
    var i := IndexOf(b, sep);
    assert i < |b|;
    assert Split(b, sep)[0] == b[..i];
  }

  lemma {:induction false} IndexOfFirst(s: string, c: char, i: nat)
    requires i < |s| && s[i] == c && c !in s[..i]
    ensures IndexOf(s, c) == i
    decreases |s|
  {
    if i > 0 {
      assert s[0] in s[..i];
      assert s[1..][..i - 1] == s[..i][1..];
      IndexOfFirst(s[1..], c, i - 1);
    }
  }

  /** The text before the first `sep` (all of `s` when there is none): QString::split(sep).first(). */
  function BeforeFirst(s: string, sep: char): (r: string)
    ensures StartsWith(s, r)
    ensures sep !in r
    ensures |r| < |s| ==> s[|r|] == sep
  {
    s[..IndexOf(s, sep)]
  }

  // ---------------------------------------------------------------------------
  // QString::trimmed
  // ---------------------------------------------------------------------------

  /** QChar::isSpace: the C0 white space, NEL, NBSP and the Unicode space separators. */
  predicate IsSpace(c: char) {
    c == ' ' || c == '\t' || c == '\n' || c == '\r' || c == '\U{000B}' || c == '\U{000C}'
    || c == '\U{0085}' || c == '\U{00A0}' || c == '\U{1680}'
    || ('\U{2000}' <= c <= '\U{200A}')
    || c == '\U{2028}' || c == '\U{2029}' || c == '\U{202F}' || c == '\U{205F}' || c == '\U{3000}'
  }

  predicate AllSpace(s: string) {
    forall k :: 0 <= k < |s| ==> IsSpace(s[k])
  }

  function TrimStart(s: string): (r: string)
    ensures EndsWith(s, r)
    ensures r == [] || !IsSpace(r[0])
    ensures AllSpace(s[..|s| - |r|])
    decreases |s|
  {
    if s != [] && IsSpace(s[0]) then
      var r := TrimStart(s[1..]);
      PeelFirst(s, |r|);
      r
    else s
  }

  function TrimEnd(s: string): (r: string)
    ensures StartsWith(s, r)
    ensures r == [] || !IsSpace(r[|r| - 1])
    ensures AllSpace(s[|r|..])
    decreases |s|
  {
    if s != [] && IsSpace(s[|s| - 1]) then
      var r := TrimEnd(s[..|s| - 1]);
      assert s[..|r|] == s[..|s| - 1][..|r|];
      assert s[|r|..] == s[..|s| - 1][|r|..] + [s[|s| - 1]];
      r
    else s
  }

  /** Neither end of `s` is white space. */
  predicate IsTrimmed(s: string) {
    s == [] || (!IsSpace(s[0]) && !IsSpace(s[|s| - 1]))
  }

  /** `s` is `r` with only white space before it (`i` characters) and after it. */
  predicate PaddedAt(s: string, r: string, i: int) {
    0 <= i <= |s| - |r| && s[i..i + |r|] == r && AllSpace(s[..i]) && AllSpace(s[i + |r|..])
  }

  /**
    QString::trimmed: the text between the white space at both ends. The result
    has no white space at either end, only white space was cut off, and an
    all-white-space text trims to "".
   */
  function Trim(s: string): (r: string)
    ensures IsTrimmed(r)
    ensures exists i :: PaddedAt(s, r, i)
    ensures r == [] <==> AllSpace(s)
  {
    TrimSlice(s);
    TrimEmpty(s);
    TrimEnd(TrimStart(s))
  }

  lemma TrimSlice(s: string)
    ensures PaddedAt(s, TrimEnd(TrimStart(s)), |s| - |TrimStart(s)|)
  {
    var t := TrimStart(s);
    var r := TrimEnd(t);
    var i := |s| - |t|;
    assert s[i..] == t;
    assert AllSpace(s[..i]);
    assert s[i..i + |r|] == r by {
      assert t[..|r|] == r;
      assert s[i..i + |r|] == t[..|r|];
    }
    assert AllSpace(s[i + |r|..]) by {
      assert AllSpace(t[|r|..]);
      assert s[i + |r|..] == t[|r|..];
    }
  }

  lemma TrimEmpty(s: string)
    ensures TrimEnd(TrimStart(s)) == [] <==> AllSpace(s)
  {
    var t := TrimStart(s);
    var i := |s| - |t|;
    assert s[i..] == t;
    if TrimEnd(t) == [] {
      assert AllSpace(t);
      forall k | 0 <= k < |s|
        ensures IsSpace(s[k])
      {
        if k >= i {
          assert s[k] == t[k - i];
        } else {
          assert s[k] == s[..i][k];
        }
      }
    }
  }

  /** Trimming twice is trimming once. */
  lemma TrimIdempotent(s: string)
    ensures Trim(Trim(s)) == Trim(s)
  {
    TrimmedFixed(Trim(s));
  }

  lemma TrimmedFixed(s: string)
    requires IsTrimmed(s)
    ensures Trim(s) == s
  {
    assert TrimStart(s) == s;
    assert TrimEnd(s) == s;
  }

  // ---------------------------------------------------------------------------
  // Decimal numerals (QString::arg(int) for the non-negative codes used here)
  // ---------------------------------------------------------------------------

  function Digit(d: nat): (c: char)
    requires d < 10
    ensures '0' <= c <= '9'
  {
    "0123456789"[d]
  }

  function NatToString(n: nat): (s: string)
    ensures s != []
    ensures forall k :: 0 <= k < |s| ==> '0' <= s[k] <= '9'
    decreases n
  {
    if n < 10 then [Digit(n)] else NatToString(n / 10) + [Digit(n % 10)]
  }

  /** Reading the numeral back gives the number: the rendering loses nothing. */
  function ParseNat(s: string): nat
    requires forall k :: 0 <= k < |s| ==> '0' <= s[k] <= '9'
    decreases |s|
  {
    if s == [] then 0 else 10 * ParseNat(s[..|s| - 1]) + (s[|s| - 1] - '0') as nat
  }

  lemma {:induction false} ParseNatToString(n: nat)
    ensures ParseNat(NatToString(n)) == n
    decreases n
  {
    if n >= 10 {
      var s := NatToString(n / 10) + [Digit(n % 10)];
      assert s[..|s| - 1] == NatToString(n / 10);
      ParseNatToString(n / 10);
    }
  }

  // ---------------------------------------------------------------------------
  // QMap<QString, _> key order
  // ---------------------------------------------------------------------------

  /** Lexicographic order by character code, as QString's operator< orders ASCII keys. */
  predicate Below(a: string, b: string)
    decreases |a|
  {
    if a == [] then b != []
    else if b == [] then false
    else if a[0] < b[0] then true
    else a[0] == b[0] && Below(a[1..], b[1..])
  }

  lemma {:induction false} BelowIrreflexive(a: string)
    ensures !Below(a, a)
    decreases |a|
  {
    if a != [] {
      BelowIrreflexive(a[1..]);
    }
  }

  lemma {:induction false} BelowAsymmetric(a: string, b: string)
    ensures !(Below(a, b) && Below(b, a))
    decreases |a|
  {
    if a != [] && b != [] && a[0] == b[0] {
      BelowAsymmetric(a[1..], b[1..]);
    }
  }

  lemma {:induction false} BelowTotal(a: string, b: string)
    ensures a == b || Below(a, b) || Below(b, a)
    decreases |a|
  {
    if a != [] && b != [] && a[0] == b[0] {
      BelowTotal(a[1..], b[1..]);
      if a[1..] == b[1..] {
        assert a == [a[0]] + a[1..] && b == [b[0]] + b[1..];
      }
    }
  }

  lemma {:induction false} BelowTransitive(a: string, b: string, c: string)
    requires Below(a, b) && Below(b, c)
    ensures Below(a, c)
    decreases |a|
  {
    if a != [] && a[0] == b[0] && b[0] == c[0] {
      BelowTransitive(a[1..], b[1..], c[1..]);
    }
  }

  /** `k` is the smallest member of `s`. */
  predicate IsLeast(k: string, s: set<string>) {
    k in s && forall j :: j in s && j != k ==> Below(k, j)
  }

  lemma {:induction false} LeastExists(s: set<string>)
    requires s != {}
    ensures exists k :: IsLeast(k, s)
    decreases |s|
  {
    var x :| x in s;
    if s == {x} {
      assert IsLeast(x, s);
    } else {
      var rest := s - {x};
      LeastExists(rest);
      var k :| IsLeast(k, rest);
      BelowTotal(k, x);
      if Below(k, x) {
        assert IsLeast(k, s);
      } else {
        forall j | j in s && j != x
          ensures Below(x, j)
        {
          if j != k {
            BelowTransitive(x, k, j);
          }
        }
        assert IsLeast(x, s);
      }
    }
  }

  lemma LeastUnique(s: set<string>)
    ensures forall k1, k2 :: IsLeast(k1, s) && IsLeast(k2, s) ==> k1 == k2
  {
    forall k1, k2 | IsLeast(k1, s) && IsLeast(k2, s)
      ensures k1 == k2
    {
      BelowAsymmetric(k1, k2);
    }
  }

  function Least(s: set<string>): (k: string)
    requires s != {}
    ensures IsLeast(k, s)
  {
    LeastExists(s);
    LeastUnique(s);
    var k :| IsLeast(k, s); k
  }

  /** Strictly increasing in the key order. */
  predicate Ascending(ks: seq<string>) {
    forall i, j :: 0 <= i < j < |ks| ==> Below(ks[i], ks[j])
  }

  /**
    The members of `s`, each once, smallest first: the order QMap iterates its
    keys in (SortedKeysAscending proves the order).
   */
  function SortedKeys(s: set<string>): (ks: seq<string>)
    ensures |ks| == |s|
    ensures forall k :: k in ks <==> k in s
    ensures forall i, j :: 0 <= i < j < |ks| ==> ks[i] != ks[j]
    decreases |s|
  {
    if s == {} then []
    else
      var k := Least(s);
      [k] + SortedKeys(s - {k})
  }

  /** SortedKeys lists the keys in strictly increasing key order. */
  lemma {:induction false} SortedKeysAscending(s: set<string>)
    ensures Ascending(SortedKeys(s))
    decreases |s|
  {
    if s != {} {
      var k := Least(s);
      var rest := SortedKeys(s - {k});
      SortedKeysAscending(s - {k});
      assert SortedKeys(s) == [k] + rest;
      forall i, j | 0 <= i < j < |[k] + rest|
        ensures Below(([k] + rest)[i], ([k] + rest)[j])
      {
        if i == 0 {
          assert rest[j - 1] in s - {k};
        } else {
          assert ([k] + rest)[i] == rest[i - 1];
        }
      }
    }
  }

}
