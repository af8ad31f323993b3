/** Locality of the SQL lexer, and its consequence: splitting the splitter's own
    output, statement by statement or joined with newlines, changes nothing. */
module SqlRoundTrip {
  import opened SqlSplit

  // ------------------------------------------------------------- locality

  /** s from i and t from k agree on n bytes. */
  ghost predicate Same(s: bytes, i: nat, t: bytes, k: nat, n: nat)
  {
    i + n <= |s| && k + n <= |t| && forall j :: i <= j < i + n ==> s[j] == t[j - i + k]
  }

  /** ... and both end there. */
  ghost predicate SameToEnd(s: bytes, i: nat, t: bytes, k: nat, n: nat)
  {
    Same(s, i, t, k, n) && i + n == |s| && k + n == |t|
  }

  lemma {:induction false} LineSame(s: bytes, i: nat, t: bytes, k: nat, n: nat)
    requires Same(s, i, t, k, n) && (LineEnd(s, i) < i + n || SameToEnd(s, i, t, k, n))
    ensures LineEnd(t, k) - k == LineEnd(s, i) - i
    decreases n
  {
    if n > 0 && s[i] != '\n' { LineSame(s, i + 1, t, k + 1, n - 1); }
  }

  lemma {:induction false} DoubleSame(s: bytes, i: nat, t: bytes, k: nat, n: nat)
    requires Same(s, i, t, k, n) && (DoubleEnd(s, i) < i + n || SameToEnd(s, i, t, k, n))
    ensures DoubleEnd(t, k) - k == DoubleEnd(s, i) - i
    decreases n
  {
    if n > 0 && s[i] != '"' { DoubleSame(s, i + 1, t, k + 1, n - 1); }
  }

  lemma {:induction false} SingleSame(s: bytes, i: nat, t: bytes, k: nat, n: nat)
    requires Same(s, i, t, k, n) && (SingleEnd(s, i) < i + n || SameToEnd(s, i, t, k, n))
    ensures SingleEnd(t, k) - k == SingleEnd(s, i) - i
    decreases n
  {
    if n > 0 {
      if s[i] != '\'' {
        SingleSame(s, i + 1, t, k + 1, n - 1);
      } else if i + 1 < |s| && s[i + 1] == '\'' {
        assert n >= 2;
        assert t[k + 1] == '\'';
        SingleSame(s, i + 2, t, k + 2, n - 2);
      } else if n >= 2 {
        assert t[k + 1] == s[i + 1];
      }
    }
  }

  lemma {:induction false} BlockSame(s: bytes, i: nat, t: bytes, k: nat, n: nat)
    requires Same(s, i, t, k, n)
    requires (BlockEnd(s, i) < i + n && i + n < |s|) || SameToEnd(s, i, t, k, n)
    ensures BlockEnd(t, k) - k == BlockEnd(s, i) - i
    decreases n
  {
    if n >= 2 {
      assert t[k] == s[i] && t[k + 1] == s[i + 1];
      if !(s[i] == '*' && s[i + 1] == '/') { BlockSame(s, i + 1, t, k + 1, n - 1); }
    }
  }

  lemma {:induction false} TagSame(s: bytes, i: nat, t: bytes, k: nat, n: nat)
    requires Same(s, i, t, k, n) && 0 != TagEnd(s, i) <= i + n
    ensures TagEnd(t, k) - k == TagEnd(s, i) - i && TagEnd(t, k) != 0
    decreases n
  {
    assert t[k] == s[i];
    if s[i] != '$' { TagSame(s, i + 1, t, k + 1, n - 1); }
  }

  /** The quotes that open with s[i..b] and t[k..c], searched from p and q on. */
  lemma {:induction false} QuoteSame(s: bytes, i: nat, b: nat, p: nat,
                                     t: bytes, k: nat, c: nat, q: nat, n: nat)
    requires Same(s, i, t, k, n) && i < b <= p <= i + n && c - k == b - i && q - k == p - i
    requires QuoteEnd(s, i, b, p) < i + n || SameToEnd(s, i, t, k, n)
    ensures QuoteEnd(t, k, c, q) - k == QuoteEnd(s, i, b, p) - i
    decreases i + n - p
  {
    if p + (b - i) <= i + n {
      RepeatsSame(s, i, b, p, t, k, c, q, n);
    }
    if p < i + n && !Repeats(s, i, b, p) {
      QuoteSame(s, i, b, p + 1, t, k, c, q + 1, n);
    }
  }

  lemma SameSlice(s: bytes, i: nat, t: bytes, k: nat, n: nat, a: nat, b: nat)
    requires Same(s, i, t, k, n) && i <= a <= b <= i + n
    ensures s[a..b] == t[a - i + k..b - i + k]
  {
  }

  lemma RepeatsSame(s: bytes, i: nat, b: nat, p: nat, t: bytes, k: nat, c: nat, q: nat, n: nat)
    requires Same(s, i, t, k, n) && i < b <= p && p + (b - i) <= i + n
    requires c - k == b - i && q - k == p - i
    ensures Repeats(t, k, c, q) <==> Repeats(s, i, b, p)
  {
    SameSlice(s, i, t, k, n, i, b);
    SameSlice(s, i, t, k, n, p, p + (b - i));
  }

  lemma SameSymmetric(s: bytes, i: nat, t: bytes, k: nat, n: nat)
    requires Same(s, i, t, k, n)
    ensures Same(t, k, s, i, n)
  {
    forall j | k <= j < k + n ensures t[j] == s[j - k + i] {
      assert s[j - k + i] == t[j];
    }
  }

  /** What ends the n bytes, so that no token can reach across: the end of t, or
      a ';' that more of s follows. */
  ghost predicate Sealed(s: bytes, i: nat, t: bytes, k: nat, n: nat)
    requires i + n <= |s|
  {
    k + n == |t| || (0 < n && s[i + n - 1] == ';' && i + n < |s|)
  }

  lemma {:induction false} TagBytes(s: bytes, i: nat, j: nat)
    requires i <= |s| && i <= j < TagEnd(s, i) - 1
    ensures IsDollarTagByte(s[j])
    decreases j - i
  {
    if i < j { TagBytes(s, i + 1, j); }
  }

  lemma TagSameBack(s: bytes, i: nat, t: bytes, k: nat, n: nat)
    requires Same(s, i, t, k, n) && 0 != TagEnd(t, k) <= k + n
    ensures TagEnd(s, i) != 0
  {
    SameSymmetric(s, i, t, k, n);
    TagSame(t, k, s, i, n);
  }

  lemma QuoteSameBack(s: bytes, i: nat, b: nat, t: bytes, k: nat, c: nat, n: nat)
    requires Same(s, i, t, k, n) && i < b <= i + n && k + n == |t| && c - k == b - i
    requires i + n <= QuoteEnd(s, i, b, b)
    ensures QuoteEnd(t, k, c, c) == |t|
  {
    if QuoteEnd(t, k, c, c) < |t| {
      SameSymmetric(s, i, t, k, n);
      QuoteSame(t, k, c, c, s, i, b, b, n);
    }
  }

  lemma TagSameAfter(s: bytes, i: nat, t: bytes, k: nat, n: nat)
    requires 0 < n && Same(s, i, t, k, n) && 0 != TagEnd(s, i + 1) <= i + n
    ensures TagEnd(t, k + 1) != 0 && TagEnd(t, k + 1) - k == TagEnd(s, i + 1) - i
  {
    TagSame(s, i + 1, t, k + 1, n - 1);
  }

  lemma QuotedSame(s: bytes, i: nat, t: bytes, k: nat, n: nat)
    requires 0 < n && Same(s, i, t, k, n) && TagEnd(s, i + 1) != 0
    requires DollarEnd(s, i) < i + n || SameToEnd(s, i, t, k, n)
    ensures DollarEnd(t, k) - k == DollarEnd(s, i) - i
  {
    var b := TagEnd(s, i + 1);
    TagSameAfter(s, i, t, k, n);
    QuoteSame(s, i, b, b, t, k, TagEnd(t, k + 1), TagEnd(t, k + 1), n);
  }

  lemma NoTagAcross(s: bytes, i: nat, t: bytes, k: nat, n: nat)
    requires 0 < n && Same(s, i, t, k, n) && Sealed(s, i, t, k, n)
    requires s[i] == '$' && TagEnd(s, i + 1) == 0
    ensures TagEnd(t, k + 1) == 0
  {
    var e := TagEnd(t, k + 1);
    if 0 != e <= k + n {
      TagSameBack(s, i + 1, t, k + 1, n - 1);
    } else if e != 0 {
      assert n > 1 && s[i + n - 1] == t[k + n - 1];
      TagBytes(t, k + 1, k + n - 1);
    }
  }

  lemma DollarSame(s: bytes, i: nat, t: bytes, k: nat, n: nat)
    requires 0 < n && Same(s, i, t, k, n) && Sealed(s, i, t, k, n) && s[i] == '$'
    requires TokenEnd(s, i) < i + n || SameToEnd(s, i, t, k, n)
    ensures TokenEnd(t, k) - k == TokenEnd(s, i) - i
  {
    assert t[k] == s[i];
    if TagEnd(s, i + 1) == 0 {
      NoTagAcross(s, i, t, k, n);
    } else {
      QuotedSame(s, i, t, k, n);
    }
  }

  /** A token that ends inside the common bytes is the same token in t. */
  lemma TokenSame(s: bytes, i: nat, t: bytes, k: nat, n: nat)
    requires 0 < n && Same(s, i, t, k, n) && Sealed(s, i, t, k, n)
    requires TokenEnd(s, i) < i + n || SameToEnd(s, i, t, k, n)
    ensures TokenEnd(t, k) - k == TokenEnd(s, i) - i
  {
    assert t[k] == s[i];
    if n == 1 {
      OneByteToken(s, i);
      OneByteToken(t, k);
    } else {
      assert t[k + 1] == s[i + 1];
      if Opens(s, i, '-', '-') {
        LineSame(s, i + 2, t, k + 2, n - 2);
      } else if Opens(s, i, '/', '*') {
        BlockSame(s, i + 2, t, k + 2, n - 2);
      } else if s[i] == '\'' {
        SingleSame(s, i + 1, t, k + 1, n - 1);
      } else if s[i] == '"' {
        DoubleSame(s, i + 1, t, k + 1, n - 1);
      } else if s[i] == '$' {
        DollarSame(s, i, t, k, n);
      }
    }
  }

  lemma OneByteToken(s: bytes, i: nat)
    requires i + 1 == |s|
    ensures TokenEnd(s, i) == |s|
  {
  }

  lemma {:induction false} CutEndsWithSemi(s: bytes, i: nat)
    requires i <= |s| && CutAfter(s, i) < |s|
    ensures i < CutAfter(s, i) && s[CutAfter(s, i) - 1] == ';'
    decreases |s| - i
  {
    if s[i] != ';' { CutEndsWithSemi(s, TokenEnd(s, i)); }
  }

  /** A statement that something follows in s is cut the same way wherever its
      bytes appear. */
  lemma {:induction false} CutSame(s: bytes, i: nat, t: bytes, k: nat, n: nat)
    requires i <= |s| && CutAfter(s, i) == i + n < |s| && Same(s, i, t, k, n)
    ensures CutAfter(t, k) == k + n
    decreases n
  {
    CutEndsWithSemi(s, i);
    assert t[k] == s[i];
    if s[i] != ';' {
      var e := TokenEnd(s, i);
      TokenSame(s, i, t, k, n);
      CutSame(s, e, t, e - i + k, n - (e - i));
    }
  }

  lemma {:induction false} CutSameToEnd(s: bytes, i: nat, t: bytes, k: nat, n: nat)
    requires SameToEnd(s, i, t, k, n)
    ensures CutAfter(t, k) - k == CutAfter(s, i) - i
    decreases n
  {
    if n > 0 {
      assert t[k] == s[i];
      if s[i] != ';' {
        var e := TokenEnd(s, i);
        TokenSame(s, i, t, k, n);
        CutSameToEnd(s, e, t, e - i + k, n - (e - i));
      }
    }
  }

  // ------------------------------------------- trimming the last statement

  ghost predicate Blank(s: bytes, a: nat, b: nat)
    requires b <= |s|
  {
    forall j :: a <= j < b ==> IsSpace(s[j])
  }

  /** t ends with the n common bytes, which end in a non-space that only space
      follows in s. */
  ghost predicate TrimmedTail(s: bytes, i: nat, t: bytes, k: nat, n: nat)
  {
    && Same(s, i, t, k, n) && 0 < n && k + n == |t|
    && Blank(s, i + n, |s|) && !IsSpace(s[i + n - 1])
  }

  /** If a token of s covers all n bytes, cutting off the space leaves at most the
      last byte outside the token. */
  lemma TokenOfTrimmed(s: bytes, i: nat, t: bytes, k: nat, n: nat)
    requires TrimmedTail(s, i, t, k, n) && i + n <= TokenEnd(s, i)
    ensures TokenEnd(t, k) >= |t| - 1
  {
    SameSymmetric(s, i, t, k, n);
    assert t[k] == s[i];
    if n >= 3 && TokenEnd(t, k) < |t| - 1 {
      assert t[k + 1] == s[i + 1];
      if Opens(t, k, '-', '-') {
        LineSame(t, k + 2, s, i + 2, n - 2);
      } else if Opens(t, k, '/', '*') {
        BlockSame(t, k + 2, s, i + 2, n - 3);
      } else if t[k] == '\'' {
        SingleSame(t, k + 1, s, i + 1, n - 1);
      } else if t[k] == '"' {
        DoubleSame(t, k + 1, s, i + 1, n - 1);
      } else if t[k] == '$' {
        DollarOfTrimmed(s, i, t, k, n);
      }
      assert false;
    }
  }

  lemma DollarOfTrimmed(s: bytes, i: nat, t: bytes, k: nat, n: nat)
    requires TrimmedTail(s, i, t, k, n) && i + n <= TokenEnd(s, i) && s[i] == '$' && n >= 3
    ensures TokenEnd(t, k) == |t|
  {
    var b := TagEnd(s, i + 1);
    assert t[k] == s[i] && b != 0 && s[b - 1] == '$';
    assert b <= i + n;
    TagSameAfter(s, i, t, k, n);
    QuoteSameBack(s, i, b, t, k, TagEnd(t, k + 1), n);
  }

  lemma {:induction false} CutOfTrimmed(s: bytes, i: nat, t: bytes, k: nat, n: nat)
    requires TrimmedTail(s, i, t, k, n) && CutAfter(s, i) == |s|
    ensures CutAfter(t, k) == |t|
    decreases n
  {
    assert t[k] == s[i];
    if s[i] != ';' {
      var e := TokenEnd(s, i);
      if e < i + n {
        TokenSame(s, i, t, k, n);
        CutOfTrimmed(s, e, t, e - i + k, n - (e - i));
      } else {
        TokenOfTrimmed(s, i, t, k, n);
        if TokenEnd(t, k) == |t| - 1 { OneByteToken(t, |t| - 1); }
      }
    }
  }

  lemma {:induction false} CutSkipsSpace(s: bytes, i: nat, a: nat)
    requires i <= a <= |s| && Blank(s, i, a)
    ensures a < |s| ==> CutAfter(s, i) == CutAfter(s, a)
    ensures a < |s| || CutAfter(s, i) == |s|
    decreases a - i
  {
    if i < a { CutSkipsSpace(s, i + 1, a); }
  }

  // --------------------------------------------------------- trimmed spans

  lemma {:induction false} TrimLeftSpan(s: bytes, i: nat, c: nat) returns (a: nat)
    requires i <= c <= |s|
    ensures i <= a <= c && TrimLeft(s[i..c]) == s[a..c] && Blank(s, i, a)
    ensures a < c ==> !IsSpace(s[a])
    decreases c - i
  {
    a := i;
    if i < c && IsSpace(s[i]) {
      assert s[i..c][1..] == s[i + 1..c];
      a := TrimLeftSpan(s, i + 1, c);
    }
  }

  lemma {:induction false} TrimRightSpan(s: bytes, a: nat, c: nat) returns (b: nat)
    requires a <= c <= |s|
    ensures a <= b <= c && TrimRight(s[a..c]) == s[a..b] && Blank(s, b, c)
    ensures a < b ==> !IsSpace(s[b - 1])
    decreases c - a
  {
    b := c;
    if a < c && IsSpace(s[c - 1]) {
      assert s[a..c][..c - 1 - a] == s[a..c - 1];
      b := TrimRightSpan(s, a, c - 1);
    }
  }

  ghost predicate IsTrimmed(u: bytes)
  {
    u != [] && !IsSpace(u[0]) && !IsSpace(u[|u| - 1])
  }

  /** Where the trimmed text of s[i..c] lies in s. */
  lemma TrimSpan(s: bytes, i: nat, c: nat) returns (a: nat, b: nat)
    requires i <= c <= |s| && Trim(s[i..c]) != []
    ensures i <= a < b <= c && Trim(s[i..c]) == s[a..b]
    ensures Blank(s, i, a) && Blank(s, b, c) && IsTrimmed(s[a..b])
  {
    a := TrimLeftSpan(s, i, c);
    b := TrimRightSpan(s, a, c);
  }

  lemma TrimOfTrimmed(u: bytes)
    requires IsTrimmed(u)
    ensures NonBlank(u) == [u]
  {
    assert TrimLeft(u) == u && TrimRight(u) == u;
  }

  /** The statement in s[i..cut], found at a, and how it lexes on its own. */
  lemma StatementAt(s: bytes, i: nat) returns (a: nat, st: bytes)
    requires i < |s| && Trim(s[i..CutAfter(s, i)]) != []
    ensures st == Trim(s[i..CutAfter(s, i)]) && IsTrimmed(st)
    ensures a + |st| <= |s| && Same(s, a, st, 0, |st|)
    ensures CutAfter(st, 0) == |st|
    ensures CutAfter(s, i) < |s| ==> CutAfter(s, a) == CutAfter(s, i) == a + |st|
  {
    var c, b := CutAfter(s, i), 0;
    a, b := TrimSpan(s, i, c);
    st := s[a..b];
    CutSkipsSpace(s, i, a);
    if c < |s| {
      CutEndsWithSemi(s, i);
      assert b == c;
      CutSame(s, a, st, 0, |st|);
    } else {
      CutOfTrimmed(s, a, st, 0, |st|);
    }
  }

  lemma {:induction false} StatementsOfStatement(s: bytes, i: nat, st: bytes)
    requires i <= |s| && st in StatementsFrom(s, i)
    ensures Statements(st) == [st]
    decreases |s| - i
  {
    Unfold(s, i, CutAfter(s, i));
    if st in NonBlank(s[i..CutAfter(s, i)]) {
      var a, u := StatementAt(s, i);
      WholeStatement(st);
    } else {
      StatementsOfStatement(s, CutAfter(s, i), st);
    }
  }

  lemma WholeStatement(st: bytes)
    requires IsTrimmed(st) && CutAfter(st, 0) == |st|
    ensures Statements(st) == [st]
  {
    TrimOfTrimmed(st);
    Unfold(st, 0, |st|);
    assert st[0..|st|] == st;
  }

  /** Splitting one statement of a script gives that statement back. */
  lemma SplitStatementIsItself(s: bytes, st: bytes)
    requires st in Statements(s)
    ensures Statements(st) == [st]
  {
    StatementsOfStatement(s, 0, st);
  }

  // ------------------------------------------------- joining and re-splitting

  function JoinLines(parts: seq<bytes>): bytes
  {
    if parts == [] then []
    else if |parts| == 1 then parts[0]
    else parts[0] + ['\n'] + JoinLines(parts[1..])
  }

  /** t ends with r, which starts at k. */
  ghost predicate EndsWith(t: bytes, k: nat, r: bytes)
  {
    SameToEnd(r, 0, t, k, |r|)
  }

  lemma CutOfSuffix(t: bytes, k: nat, r: bytes, c: nat, p: nat) returns (e: nat, q: nat)
    requires EndsWith(t, k, r) && c <= |r| && p == k + c
    ensures e == CutAfter(r, c) && q == CutAfter(t, p) && q == k + e
    ensures t[p..q] == r[c..e]
  {
    e, q := CutAfter(r, c), CutAfter(t, p);
    CutSameToEnd(r, c, t, p, |r| - c);
    SameSlice(r, 0, t, k, |r|, c, e);
  }

  lemma {:induction false} TailChunks(t: bytes, k: nat, r: bytes, c: nat, p: nat)
    requires EndsWith(t, k, r) && c <= |r| && p == k + c
    ensures Chunks(t, p) == Chunks(r, c)
    decreases |r| - c
  {
    if c < |r| {
      var e, q := CutOfSuffix(t, k, r, c, p);
      TailChunks(t, k, r, e, q);
    }
  }

  /** A newline before a script changes none of its statements. */
  lemma LeadingNewline(t: bytes, k: nat, r: bytes)
    requires EndsWith(t, k + 1, r) && t[k] == '\n' && r != []
    ensures StatementsFrom(t, k) == Statements(r)
  {
    var c, d := CutOfSuffix(t, k + 1, r, 0, k + 1);
    CutSkipsSpace(t, k, k + 1);
    TrimNewline(t, k, d);
    TailChunks(t, k + 1, r, c, d);
    Unfold(t, k, d);
    Unfold(r, 0, c);
  }

  lemma TrimNewline(t: bytes, k: nat, d: nat)
    requires k < d <= |t| && t[k] == '\n'
    ensures NonBlank(t[k..d]) == NonBlank(t[k + 1..d])
  {
    assert t[k..d][1..] == t[k + 1..d];
  }

  lemma {:induction false} StatementsAreNotEmpty(s: bytes, i: nat)
    requires i <= |s|
    ensures forall st :: st in StatementsFrom(s, i) ==> st != []
    decreases |s| - i
  {
    if i < |s| {
      Unfold(s, i, CutAfter(s, i));
      StatementsAreNotEmpty(s, CutAfter(s, i));
    }
  }

  lemma {:induction false} JoinedStatements(s: bytes, i: nat)
    requires i <= |s|
    ensures Statements(JoinLines(StatementsFrom(s, i))) == StatementsFrom(s, i)
    decreases |s| - i
  {
    if i < |s| {
      JoinedStatements(s, CutAfter(s, i));
      Unfold(s, i, CutAfter(s, i));
      if Trim(s[i..CutAfter(s, i)]) != [] {
        JoinStatement(s, i);
      } else {
        assert StatementsFrom(s, i) == StatementsFrom(s, CutAfter(s, i));
      }
    }
  }

  lemma JoinStatement(s: bytes, i: nat)
    requires i < |s| && Trim(s[i..CutAfter(s, i)]) != []
    requires var rest := StatementsFrom(s, CutAfter(s, i)); Statements(JoinLines(rest)) == rest
    ensures Statements(JoinLines(StatementsFrom(s, i))) == StatementsFrom(s, i)
  {
    var rest := StatementsFrom(s, CutAfter(s, i));
    var a, st := StatementAt(s, i);
    Unfold(s, i, CutAfter(s, i));
    assert CutAfter(s, i) == |s| ==> rest == [];
    if rest == [] {
      WholeStatement(st);
      assert [st] + rest == [st];
    } else {
      StatementsAreNotEmpty(s, CutAfter(s, i));
      assert rest[0] in rest;
      JoinOne(s, a, st, rest);
    }
  }

  lemma JoinOne(s: bytes, a: nat, st: bytes, rest: seq<bytes>)
    requires IsTrimmed(st) && a + |st| <= |s| && Same(s, a, st, 0, |st|)
    requires CutAfter(s, a) == a + |st| < |s|
    requires rest != [] && rest[0] != [] && Statements(JoinLines(rest)) == rest
    ensures Statements(JoinLines([st] + rest)) == [st] + rest
  {
    var r := JoinLines(rest);
    var t := st + ['\n'] + r;
    assert ([st] + rest)[1..] == rest && JoinLines([st] + rest) == t;
    CutSame(s, a, t, 0, |st|);
    assert t[0..|st|] == st;
    assert EndsWith(t, |st| + 1, r);
    TrimOfTrimmed(st);
    LeadingNewline(t, |st|, r);
    Unfold(t, 0, |st|);
  }

  /** Joining the statements of a script with newlines and splitting again gives the
      same statements. */
  lemma SplitJoinRoundTrip(s: bytes)
    ensures Statements(JoinLines(Statements(s))) == Statements(s)
  {
    JoinedStatements(s, 0);
  }
}
