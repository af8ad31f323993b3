/** What the SQL splitter guarantees for every script: what a token is, where it cuts,
    and that cutting keeps every byte. */
module SqlTheorems {
  import opened SqlSplit

  // ------------------------------------------------- what a token is

  /** s[a..b] consists of plain bytes and doubled quotes. */
  predicate Escaped(s: bytes, a: nat, b: nat)
    requires a <= b <= |s|
    decreases b - a
  {
    if a == b then true
    else if s[a] != '\'' then Escaped(s, a + 1, b)
    else a + 1 < b && s[a + 1] == '\'' && Escaped(s, a + 2, b)
  }

  predicate NoByte(s: bytes, a: nat, b: nat, c: byte)
    requires b <= |s|
  {
    forall j :: a <= j < b ==> s[j] != c
  }

  predicate NoCommentClose(s: bytes, a: nat, b: nat)
  {
    forall j: nat :: a <= j < b ==> !Opens(s, j, '*', '/')
  }

  /** s[i..b] is a dollar tag: '$', letters, digits or underscores, '$'. */
  predicate IsTag(s: bytes, i: nat, b: nat)
  {
    && i + 2 <= b <= |s| && s[i] == '$' && s[b - 1] == '$'
    && forall j :: i < j < b - 1 ==> IsDollarTagByte(s[j])
  }

  predicate NoRepeat(s: bytes, i: nat, b: nat, p: nat, q: nat)
    requires i <= b <= |s|
  {
    forall x: nat :: p <= x < q ==> !Repeats(s, i, b, x)
  }

  /** r is past the first repetition of the tag s[i..b] at or after p, or the end
      when there is none. */
  predicate ClosesAt(s: bytes, i: nat, b: nat, p: nat, r: nat)
    requires i <= b <= |s|
  {
    || (r == |s| && NoRepeat(s, i, b, p, |s|))
    || (p + (b - i) <= r && Repeats(s, i, b, r - (b - i)) && NoRepeat(s, i, b, p, r - (b - i)))
  }

  /** s[i..r] is a line comment, block comment, literal, quoted identifier, dollar
      quote or single byte, closed at the first place its syntax allows, or running
      to the end (an unclosed block comment: to the byte before it). */
  ghost predicate IsToken(s: bytes, i: nat, r: nat)
    requires i < |s|
  {
    && i < r <= |s|
    && if Opens(s, i, '-', '-') then
         i + 2 <= r && NoByte(s, i + 2, r, '\n') && (r == |s| || s[r] == '\n')
       else if Opens(s, i, '/', '*') then
         if NoCommentClose(s, i + 2, |s|) then r == if i + 2 < |s| then |s| - 1 else |s|
         else i + 4 <= r && Opens(s, r - 2, '*', '/') && NoCommentClose(s, i + 2, r - 2)
       else if s[i] == '\'' then
         || (i + 2 <= r && s[r - 1] == '\'' && Escaped(s, i + 1, r - 1) && (r == |s| || s[r] != '\''))
         || (r == |s| && Escaped(s, i + 1, r))
       else if s[i] == '"' then
         || (i + 2 <= r && s[r - 1] == '"' && NoByte(s, i + 1, r - 1, '"'))
         || (r == |s| && NoByte(s, i + 1, r, '"'))
       else if exists b: nat :: IsTag(s, i, b) then
         exists b: nat :: IsTag(s, i, b) && ClosesAt(s, i, b, b, r)
       else
         r == i + 1
  }

  lemma {:induction false} LineEndIff(s: bytes, i: nat, r: nat)
    requires i <= r <= |s|
    ensures r == LineEnd(s, i) <==> NoByte(s, i, r, '\n') && (r == |s| || s[r] == '\n')
    decreases |s| - i
  {
    if i < r && s[i] != '\n' { LineEndIff(s, i + 1, r); }
  }

  lemma {:induction false} DoubleEndIff(s: bytes, i: nat, r: nat)
    requires i <= r <= |s|
    ensures r == DoubleEnd(s, i) <==>
            (i < r && s[r - 1] == '"' && NoByte(s, i, r - 1, '"')) || (r == |s| && NoByte(s, i, r, '"'))
    decreases |s| - i
  {
    if i < r && s[i] != '"' { DoubleEndIff(s, i + 1, r); }
  }

  lemma {:induction false} SingleEndIff(s: bytes, i: nat, r: nat)
    requires i <= r <= |s|
    ensures r == SingleEnd(s, i) <==>
            || (i < r && s[r - 1] == '\'' && Escaped(s, i, r - 1) && (r == |s| || s[r] != '\''))
            || (r == |s| && Escaped(s, i, r))
    decreases |s| - i
  {
    if i < |s| {
      if s[i] != '\'' {
        if i < r { SingleEndIff(s, i + 1, r); }
      } else if i + 1 < |s| && s[i + 1] == '\'' {
        if i + 2 <= r { SingleEndIff(s, i + 2, r); }
      }
    }
  }

  lemma {:induction false} BlockEndIs(s: bytes, i: nat)
    requires i <= |s|
    ensures var r := BlockEnd(s, i);
            if NoCommentClose(s, i, |s|) then r == if i < |s| then |s| - 1 else |s|
            else i + 2 <= r && Opens(s, r - 2, '*', '/') && NoCommentClose(s, i, r - 2)
    decreases |s| - i
  {
    if i + 1 < |s| && !(s[i] == '*' && s[i + 1] == '/') {
      BlockEndIs(s, i + 1);
      assert NoCommentClose(s, i, |s|) <==> NoCommentClose(s, i + 1, |s|);
    } else if i + 1 < |s| {
      assert Opens(s, i, '*', '/');
    }
  }

  lemma {:induction false} TagEndIs(s: bytes, i: nat, k: nat)
    requires i < k <= |s| && s[i] == '$'
    requires forall j :: i < j < k ==> IsDollarTagByte(s[j])
    ensures TagEnd(s, k) != 0 ==> IsTag(s, i, TagEnd(s, k))
    ensures forall b: nat :: IsTag(s, i, b) && k < b ==> b == TagEnd(s, k)
    decreases |s| - k
  {
    if k < |s| && s[k] != '$' && IsDollarTagByte(s[k]) {
      TagEndIs(s, i, k + 1);
    }
  }

  lemma {:induction false} QuoteEndIff(s: bytes, i: nat, b: nat, p: nat, r: nat)
    requires i < b <= p <= |s| && r <= |s|
    ensures r == QuoteEnd(s, i, b, p) <==> ClosesAt(s, i, b, p, r)
    decreases |s| - p
  {
    if p < |s| && !Repeats(s, i, b, p) {
      QuoteEndIff(s, i, b, p + 1, r);
      assert forall q: nat :: NoRepeat(s, i, b, p, q) <==> NoRepeat(s, i, b, p + 1, q);
    }
  }

  lemma BlockTokenIff(s: bytes, i: nat, r: nat)
    requires Opens(s, i, '/', '*')
    ensures r == TokenEnd(s, i) <==> IsToken(s, i, r)
  {
    BlockEndIs(s, i + 2);
    var e := BlockEnd(s, i + 2);
    if IsToken(s, i, r) && !NoCommentClose(s, i + 2, |s|) {
      assert Opens(s, r - 2, '*', '/') && Opens(s, e - 2, '*', '/');
    }
  }

  lemma DollarTokenIff(s: bytes, i: nat, r: nat)
    requires i < |s| && s[i] == '$'
    ensures r == TokenEnd(s, i) <==> IsToken(s, i, r)
  {
    TagEndIs(s, i, i + 1);
    var b := TagEnd(s, i + 1);
    if b != 0 {
      assert IsTag(s, i, b);
      if r <= |s| { QuoteEndIff(s, i, b, b, r); }
    }
  }

  /** The lexer's tokens are exactly the regions SQL's syntax describes. */
  lemma TokenEndIff(s: bytes, i: nat, r: nat)
    requires i < |s|
    ensures r == TokenEnd(s, i) <==> IsToken(s, i, r)
  {
    if Opens(s, i, '-', '-') {
      if i + 2 <= r <= |s| { LineEndIff(s, i + 2, r); }
    } else if Opens(s, i, '/', '*') {
      BlockTokenIff(s, i, r);
    } else if s[i] == '\'' {
      if i < r <= |s| { SingleEndIff(s, i + 1, r); }
    } else if s[i] == '"' {
      if i < r <= |s| { DoubleEndIff(s, i + 1, r); }
    } else if s[i] == '$' {
      DollarTokenIff(s, i, r);
    } else {
      assert forall b: nat :: !IsTag(s, i, b);
    }
  }

  // ---------------------------------------------------------- where it cuts

  /** Reading tokens from position i, one of them starts at p. */
  predicate StartsToken(s: bytes, i: nat, p: nat)
    requires i <= |s|
    decreases |s| - i
  {
    p == i || (i < |s| && p > i && StartsToken(s, TokenEnd(s, i), p))
  }

  /** A top-level ';': a token by itself, outside comments and quotes. */
  predicate IsTopSemi(s: bytes, i: nat, p: nat)
    requires i <= |s|
  {
    p < |s| && s[p] == ';' && StartsToken(s, i, p)
  }

  lemma {:induction false} CutIsFirstTopSemi(s: bytes, i: nat)
    requires i < |s|
    ensures var c := CutAfter(s, i);
            && (forall p: nat :: i <= p < c - 1 ==> !IsTopSemi(s, i, p))
            && (IsTopSemi(s, i, c - 1) || c == |s|)
            && (forall p: nat :: c <= p ==> (IsTopSemi(s, i, p) <==> IsTopSemi(s, c, p)))
    decreases |s| - i
  {
    if s[i] != ';' && TokenEnd(s, i) < |s| {
      var e := TokenEnd(s, i);
      CutIsFirstTopSemi(s, e);
      forall p: nat | i < p < e ensures !StartsToken(s, i, p) {
        NoStartBefore(s, e, p);
      }
      assert forall p: nat :: e <= p ==> (IsTopSemi(s, i, p) <==> IsTopSemi(s, e, p));
    } else if s[i] != ';' {
      forall p: nat | i < p ensures !IsTopSemi(s, i, p) {
        if p < |s| { NoStartBefore(s, |s|, p); }
      }
    }
  }

  lemma NoStartBefore(s: bytes, i: nat, p: nat)
    requires p < i <= |s|
    ensures !StartsToken(s, i, p)
  {
  }

  /** The positions at which the splitter ends a statement. */
  function Cuts(s: bytes, i: nat): seq<nat>
    requires i <= |s|
    decreases |s| - i
  {
    if i == |s| then [] else [CutAfter(s, i)] + Cuts(s, CutAfter(s, i))
  }

  /** The splitter cuts inside a script after each top-level ';' and nowhere else. */
  lemma {:induction false} CutsAreTopSemis(s: bytes, i: nat, p: nat)
    requires i < p < |s|
    ensures p in Cuts(s, i) <==> IsTopSemi(s, i, p - 1)
    decreases |s| - i
  {
    var c := CutAfter(s, i);
    CutIsFirstTopSemi(s, i);
    if c < p {
      CutsAreTopSemis(s, c, p);
    } else {
      CutsAreLater(s, c, p);
    }
  }

  lemma {:induction false} CutsAreLater(s: bytes, i: nat, p: nat)
    requires p <= i <= |s|
    ensures p !in Cuts(s, i)
    decreases |s| - i
  {
    if i < |s| { CutsAreLater(s, CutAfter(s, i), p); }
  }

  function Concat(parts: seq<bytes>): bytes
  {
    if parts == [] then [] else parts[0] + Concat(parts[1..])
  }

  /** No byte is lost or moved by cutting. */
  lemma {:induction false} ChunksConserveScript(s: bytes, i: nat)
    requires i <= |s|
    ensures Concat(Chunks(s, i)) == s[i..]
    decreases |s| - i
  {
    if i < |s| {
      var c := CutAfter(s, i);
      ChunksConserveScript(s, c);
      assert Chunks(s, i)[1..] == Chunks(s, c);
      assert s[i..] == s[i..c] + s[c..];
    }
  }
}
