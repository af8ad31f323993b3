/** The lexical regions of a script, written out byte by byte, and that no cut lies in
    any of them; and what is trimmed off a statement. */
module SqlRegions {
  import opened SqlSplit
  import opened SqlTheorems
  import opened SqlRoundTrip

  /** No token starts inside another. */
  lemma {:induction false} TokensDoNotOverlap(s: bytes, a: nat, i: nat, q: nat)
    requires a <= |s| && i < |s| && StartsToken(s, a, i) && i < q < TokenEnd(s, i)
    ensures !StartsToken(s, a, q)
    decreases |s| - a
  {
    if a == i {
      NoStartBefore(s, TokenEnd(s, i), q);
    } else {
      TokensDoNotOverlap(s, TokenEnd(s, a), i, q);
    }
  }

  /** No cut lies inside the token that starts at i, unless that is a ';'. */
  lemma NoCutInside(s: bytes, i: nat, e: nat)
    requires i < |s| && s[i] != ';' && StartsToken(s, 0, i) && e == TokenEnd(s, i)
    ensures forall p: nat :: i < p < e ==> p !in Cuts(s, 0)
  {
    forall p: nat | i < p < e ensures p !in Cuts(s, 0) {
      CutsAreTopSemis(s, 0, p);
      if p - 1 != i { TokensDoNotOverlap(s, 0, i, p - 1); }
    }
  }

  /** The text t stands in s at position x. */
  predicate Has(s: bytes, x: nat, t: bytes)
  {
    x + |t| <= |s| && s[x..x + |t|] == t
  }

  // ------------------------------------------------ comments

  /** Two dashes and everything up to the end of the line. */
  lemma LineCommentIsWhole(s: bytes, i: nat, e: nat)
    requires i + 2 <= e <= |s| && s[i] == '-' && s[i + 1] == '-'
    requires (forall j :: i + 2 <= j < e ==> s[j] != '\n') && (e == |s| || s[e] == '\n')
    ensures TokenEnd(s, i) == e
    ensures StartsToken(s, 0, i) ==> forall p: nat :: i < p < e ==> p !in Cuts(s, 0)
  {
    LineEndIff(s, i + 2, e);
    if StartsToken(s, 0, i) { NoCutInside(s, i, e); }
  }

  /** Slash, star and everything up to the first star, slash. */
  lemma BlockCommentIsWhole(s: bytes, i: nat, e: nat)
    requires i + 4 <= e && Has(s, i, "/*") && Has(s, e - 2, "*/")
    requires forall x: nat :: i + 2 <= x < e - 2 ==> !Has(s, x, "*/")
    ensures TokenEnd(s, i) == e
    ensures StartsToken(s, 0, i) ==> forall p: nat :: i < p < e ==> p !in Cuts(s, 0)
  {
    assert s[i] == s[i..i + 2][0] && s[i + 1] == s[i..i + 2][1];
    BlockRunsTo(s, i + 2, e);
    if StartsToken(s, 0, i) { NoCutInside(s, i, e); }
  }

  lemma {:induction false} BlockRunsTo(s: bytes, i: nat, e: nat)
    requires i + 2 <= e && Has(s, e - 2, "*/")
    requires forall x: nat :: i <= x < e - 2 ==> !Has(s, x, "*/")
    ensures e <= |s| && BlockEnd(s, i) == e
    decreases e - i
  {
    if i < e - 2 {
      assert !Has(s, i, "*/");
      assert s[i..i + 2] == [s[i], s[i + 1]];
      BlockRunsTo(s, i + 1, e);
    } else {
      assert s[i] == s[i..i + 2][0] && s[i + 1] == s[i..i + 2][1];
    }
  }

  // ------------------------------------------------ quotes

  /** A text with every single quote doubled. */
  function Doubled(text: bytes): bytes
  {
    if text == [] then []
    else (if text[0] == '\'' then ['\'', '\''] else [text[0]]) + Doubled(text[1..])
  }

  /** A literal that spells out any text, its quotes doubled. */
  lemma LiteralIsWhole(s: bytes, i: nat, text: bytes, e: nat)
    requires i < e <= |s| && s[i..e] == ['\''] + Doubled(text) + ['\'']
    requires e == |s| || s[e] != '\''
    ensures TokenEnd(s, i) == e
    ensures StartsToken(s, 0, i) ==> forall p: nat :: i < p < e ==> p !in Cuts(s, 0)
  {
    assert s[i] == s[i..e][0] == '\'';
    assert s[i + 1..e] == s[i..e][1..] == Doubled(text) + ['\''];
    LiteralRunsTo(s, i + 1, text, e);
    if StartsToken(s, 0, i) { NoCutInside(s, i, e); }
  }

  lemma {:induction false} LiteralRunsTo(s: bytes, i: nat, text: bytes, e: nat)
    requires i < e <= |s| && s[i..e] == Doubled(text) + ['\'']
    requires e == |s| || s[e] != '\''
    ensures SingleEnd(s, i) == e
    decreases |text|
  {
    if text == [] {
      assert s[i] == s[i..e][0] == '\'' && e == i + 1;
    } else if text[0] == '\'' {
      assert s[i] == s[i..e][0] == '\'' && s[i + 1] == s[i..e][1] == '\'';
      assert s[i + 2..e] == s[i..e][2..] == Doubled(text[1..]) + ['\''];
      LiteralRunsTo(s, i + 2, text[1..], e);
    } else {
      assert s[i] == s[i..e][0] == text[0];
      assert s[i + 1..e] == s[i..e][1..] == Doubled(text[1..]) + ['\''];
      LiteralRunsTo(s, i + 1, text[1..], e);
    }
  }

  /** A double-quoted identifier. */
  lemma IdentifierIsWhole(s: bytes, i: nat, e: nat)
    requires i + 2 <= e <= |s| && s[i] == '"' && s[e - 1] == '"'
    requires forall j :: i + 1 <= j < e - 1 ==> s[j] != '"'
    ensures TokenEnd(s, i) == e
    ensures StartsToken(s, 0, i) ==> forall p: nat :: i < p < e ==> p !in Cuts(s, 0)
  {
    DoubleEndIff(s, i + 1, e);
    if StartsToken(s, 0, i) { NoCutInside(s, i, e); }
  }

  // ------------------------------------------------ dollar quotes

  /** A name of letters, digits and underscores, possibly empty. */
  predicate IsName(name: bytes)
  {
    forall j :: 0 <= j < |name| ==>
      'a' <= name[j] <= 'z' || 'A' <= name[j] <= 'Z' || '0' <= name[j] <= '9' || name[j] == '_'
  }

  lemma TagByteIsName(b: byte)
    ensures IsDollarTagByte(b) <==> IsName([b])
  {
    assert IsName([b]) ==> IsName([b][0..1]) && [b][0] == b;
    if IsDollarTagByte(b) {
      forall j | 0 <= j < |[b]| ensures [b][j] == b { }
    }
  }

  /** A tag, any body, and the first repetition of the tag: no cut lies in it, whatever
      the body holds. */
  lemma DollarQuoteIsWhole(s: bytes, i: nat, name: bytes, tag: bytes, e: nat)
    requires IsName(name) && tag == ['$'] + name + ['$']
    requires i + 2 * |tag| <= e && Has(s, i, tag) && Has(s, e - |tag|, tag)
    requires forall x: nat :: i + |tag| <= x < e - |tag| ==> !Has(s, x, tag)
    ensures TokenEnd(s, i) == e
    ensures StartsToken(s, 0, i) ==> forall p: nat :: i < p < e ==> p !in Cuts(s, 0)
  {
    TagAt(s, i, name, tag);
    QuoteRunsTo(s, i, i + |tag|, tag, i + |tag|, e);
    if StartsToken(s, 0, i) { NoCutInside(s, i, e); }
  }

  lemma TagAt(s: bytes, i: nat, name: bytes, tag: bytes)
    requires IsName(name) && tag == ['$'] + name + ['$'] && Has(s, i, tag)
    ensures s[i] == '$' && TagEnd(s, i + 1) == i + |tag|
  {
    var b := i + |tag|;
    assert s[i..b] == tag;
    forall j | 0 <= j < |tag| ensures s[i + j] == tag[j] {
      assert s[i..b][j] == tag[j];
    }
    assert s[i + 0] == tag[0];
    forall j | 0 <= j < |name| ensures s[i + 1 + j] == name[j] {
      assert s[i + (j + 1)] == tag[j + 1] == name[j];
    }
    TagRunsTo(s, i + 1, name);
  }

  lemma {:induction false} TagRunsTo(s: bytes, i: nat, name: bytes)
    requires IsName(name) && i + |name| < |s| && s[i + |name|] == '$'
    requires forall j :: 0 <= j < |name| ==> s[i + j] == name[j]
    ensures TagEnd(s, i) == i + |name| + 1
    decreases |name|
  {
    if name != [] {
      assert s[i + 0] == name[0];
      var rest := name[1..];
      forall j | 0 <= j < |rest| ensures s[i + 1 + j] == rest[j] {
        assert s[i + (j + 1)] == name[j + 1];
      }
      TagRunsTo(s, i + 1, rest);
    }
  }

  lemma {:induction false} QuoteRunsTo(s: bytes, i: nat, b: nat, tag: bytes, p: nat, e: nat)
    requires i < b <= p && b == i + |tag| && Has(s, i, tag)
    requires p + |tag| <= e && Has(s, e - |tag|, tag)
    requires forall x: nat :: p <= x < e - |tag| ==> !Has(s, x, tag)
    ensures e <= |s| && QuoteEnd(s, i, b, p) == e
    decreases e - p
  {
    assert s[i..b] == tag;
    assert Repeats(s, i, b, p) <==> Has(s, p, tag);
    if p + |tag| < e {
      assert !Has(s, p, tag);
      QuoteRunsTo(s, i, b, tag, p + 1, e);
    }
  }

  /** A '$' after which another byte comes before the next '$' opens nothing. */
  lemma BareDollarIsOneByte(s: bytes, i: nat, j: nat)
    requires i < j <= |s| && s[i] == '$' && IsName(s[i + 1..j])
    requires j == |s| || (s[j] != '$' && !IsName([s[j]]))
    ensures TokenEnd(s, i) == i + 1
  {
    if j < |s| { TagByteIsName(s[j]); }
    NoTagUpTo(s, i + 1, j);
  }

  lemma {:induction false} NoTagUpTo(s: bytes, i: nat, j: nat)
    requires i <= j <= |s| && IsName(s[i..j])
    requires j < |s| ==> s[j] != '$' && !IsDollarTagByte(s[j])
    ensures TagEnd(s, i) == 0
    decreases j - i
  {
    if i < j {
      assert s[i] == s[i..j][0];
      assert s[i + 1..j] == s[i..j][1..];
      NoTagUpTo(s, i + 1, j);
    }
  }

  // ------------------------------------------------ everything else

  /** Any other byte stands for itself, and a ';' among them is a cut. */
  lemma PlainByte(s: bytes, i: nat)
    requires i < |s| && s[i] != '\'' && s[i] != '"' && s[i] != '$'
    requires s[i] == '-' ==> i + 1 == |s| || s[i + 1] != '-'
    requires s[i] == '/' ==> i + 1 == |s| || s[i + 1] != '*'
    ensures TokenEnd(s, i) == i + 1
    ensures s[i] == ';' && StartsToken(s, 0, i) && i + 1 < |s| ==> i + 1 in Cuts(s, 0)
  {
    if i + 1 < |s| { CutsAreTopSemis(s, 0, i + 1); }
  }

  // ------------------------------------------------ trimming

  /** Blank, tab, line feed, vertical tab, form feed and carriage return. */
  const WHITE: set<byte> := {' ', '\t', '\n', '\U{000B}', '\U{000C}', '\r'}

  predicate AllWhite(t: bytes)
  {
    forall j :: 0 <= j < |t| ==> t[j] in WHITE
  }

  lemma SpaceIsWhite(b: byte)
    ensures IsSpace(b) <==> b in WHITE
  {
    if IsSpace(b) && b != ' ' {
      assert 9 <= b as int <= 13;
      assert b == b as int as char;
    }
  }

  /** Trimming takes white space off both ends and nothing else. */
  lemma TrimTakesWhite(t: bytes) returns (pre: bytes, post: bytes)
    ensures t == pre + Trim(t) + post && AllWhite(pre) && AllWhite(post)
    ensures Trim(t) != [] ==> Trim(t)[0] !in WHITE && Trim(t)[|Trim(t)| - 1] !in WHITE
  {
    var a := TrimLeftSpan(t, 0, |t|);
    assert t[0..|t|] == t;
    var b := TrimRightSpan(t, a, |t|);
    pre, post := t[..a], t[b..];
    forall j | 0 <= j < |t| ensures IsSpace(t[j]) <==> t[j] in WHITE { SpaceIsWhite(t[j]); }
    assert t == t[..a] + t[a..b] + t[b..];
  }

  /** Every statement is a piece of the script with its white space taken off, and no
      statement is empty. */
  lemma {:induction false} StatementsAreTrimmedPieces(s: bytes, i: nat, st: bytes)
    requires i <= |s| && st in StatementsFrom(s, i)
    ensures exists k :: 0 <= k < |Chunks(s, i)| && st == Trim(Chunks(s, i)[k])
    ensures st != [] && st[0] !in WHITE && st[|st| - 1] !in WHITE
    decreases |s| - i
  {
    var c := CutAfter(s, i);
    Unfold(s, i, c);
    assert Chunks(s, i)[0] == s[i..c] && Chunks(s, i)[1..] == Chunks(s, c);
    if st in NonBlank(s[i..c]) {
      var pre, post := TrimTakesWhite(s[i..c]);
    } else {
      StatementsAreTrimmedPieces(s, c, st);
      var k :| 0 <= k < |Chunks(s, c)| && st == Trim(Chunks(s, c)[k]);
      assert Chunks(s, i)[k + 1] == Chunks(s, c)[k];
    }
  }

  /** And only white pieces are dropped. */
  lemma {:induction false} DroppedPiecesAreWhite(s: bytes, i: nat, k: nat)
    requires i <= |s| && k < |Chunks(s, i)|
    ensures Trim(Chunks(s, i)[k]) in StatementsFrom(s, i) || AllWhite(Chunks(s, i)[k])
    decreases |s| - i
  {
    var c := CutAfter(s, i);
    Unfold(s, i, c);
    assert Chunks(s, i)[0] == s[i..c] && Chunks(s, i)[1..] == Chunks(s, c);
    if k == 0 {
      var pre, post := TrimTakesWhite(s[i..c]);
    } else {
      DroppedPiecesAreWhite(s, c, k - 1);
    }
  }
}
