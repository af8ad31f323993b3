/** Two corners of the splitter: when a ';' by itself is returned as a statement, and
    what an unterminated block comment does to the cuts. */
module SqlEdges {
  import opened SqlSplit
  import opened SqlTheorems
  import opened SqlRoundTrip

  /** The smallest script whose empty statement is not dropped. */
  lemma LoneSemicolonIsKept()
    ensures Statements(";") == [";"]
  {
    var s: bytes := ";";
    assert IsTrimmed(s);
    assert CutAfter(s, 0) == 1;
    WholeStatement(s);
  }

  /** The piece from i to its cut is just a ';' exactly when it ends in one and only
      white space comes before. */
  lemma PieceIsSemicolonIff(s: bytes, i: nat, c: nat)
    requires i < |s| && c == CutAfter(s, i)
    ensures NonBlank(s[i..c]) == [";"] <==> s[c - 1] == ';' && Blank(s, i, c - 1)
  {
    if NonBlank(s[i..c]) == [";"] {
      var a, b := TrimSpan(s, i, c);
      assert Trim(s[i..c]) == ";";
      assert b == a + 1 && s[a] == s[a..b][0] == ';';
      CutSkipsSpace(s, i, a);
      assert CutAfter(s, a) == a + 1;
    }
    if s[c - 1] == ';' && Blank(s, i, c - 1) {
      assert Trim(s[i..c]) == ";" by {
        TrimBlankSemicolon(s, i, c);
      }
    }
  }

  lemma {:induction false} TrimBlankSemicolon(s: bytes, i: nat, c: nat)
    requires i < c <= |s| && s[c - 1] == ';' && Blank(s, i, c - 1)
    ensures Trim(s[i..c]) == ";"
    decreases c - i
  {
    if i == c - 1 {
      assert s[i..c] == ";";
      TrimOfTrimmed(s[i..c]);
      assert NonBlank(s[i..c]) == [s[i..c]];
    } else {
      assert s[i..c][1..] == s[i + 1..c];
      TrimBlankSemicolon(s, i + 1, c);
    }
  }

  /** Read from i, the ';' at p is top-level and only white space lies between it and
      j, which is i or follows a top-level ';'. */
  ghost predicate EmptyAt(s: bytes, i: nat, j: nat, p: nat)
    requires i <= |s|
  {
    i <= j <= p < |s| && IsTopSemi(s, i, p) && (j == i || IsTopSemi(s, i, j - 1)) && Blank(s, j, p)
  }

  lemma {:induction false} TokensThroughBlank(s: bytes, i: nat, p: nat)
    requires i <= p < |s| && Blank(s, i, p)
    ensures StartsToken(s, i, p)
    decreases p - i
  {
    if i < p {
      TokensThroughBlank(s, i + 1, p);
    }
  }

  /** The first piece is just a ';' exactly when it is empty up to its own ';'. */
  lemma FirstPieceIff(s: bytes, i: nat, c: nat)
    requires i < |s| && c == CutAfter(s, i)
    ensures NonBlank(s[i..c]) == [";"] <==> EmptyAt(s, i, i, c - 1)
    ensures forall p :: EmptyAt(s, i, i, p) ==> p == c - 1
  {
    PieceIsSemicolonIff(s, i, c);
    if s[c - 1] == ';' && Blank(s, i, c - 1) {
      TokensThroughBlank(s, i, c - 1);
    }
    forall p | EmptyAt(s, i, i, p) ensures p == c - 1 {
      CutSkipsSpace(s, i, p);
    }
  }

  /** Emptiness further on does not depend on where reading started. */
  lemma LaterPieces(s: bytes, i: nat, c: nat, j: nat, p: nat)
    requires i < |s| && c == CutAfter(s, i)
    ensures EmptyAt(s, c, j, p) <==> EmptyAt(s, i, j, p) && j != i
  {
    CutIsFirstTopSemi(s, i);
    if EmptyAt(s, i, j, p) && j != i {
      assert IsTopSemi(s, i, j - 1);
      assert c - 1 <= j - 1;
    }
  }

  /** A lone ';' is among the statements exactly when some top-level ';' has nothing but
      white space between it and the top-level ';' before it, or the start. */
  lemma {:induction false} SemicolonFromIff(s: bytes, i: nat)
    requires i <= |s|
    ensures ";" in StatementsFrom(s, i) <==> exists j, p :: EmptyAt(s, i, j, p)
    decreases |s| - i
  {
    if i < |s| {
      var c := CutAfter(s, i);
      Unfold(s, i, c);
      FirstPieceIff(s, i, c);
      SemicolonFromIff(s, c);
      if ";" in NonBlank(s[i..c]) {
        assert EmptyAt(s, i, i, c - 1);
      } else if ";" in StatementsFrom(s, c) {
        var j, p :| EmptyAt(s, c, j, p);
        LaterPieces(s, i, c, j, p);
      } else if j, p :| EmptyAt(s, i, j, p) {
        LaterPieces(s, i, c, j, p);
      }
    }
  }

  lemma LoneSemicolonIff(s: bytes)
    ensures ";" in Statements(s) <==> exists j, p :: EmptyAt(s, 0, j, p)
  {
    SemicolonFromIff(s, 0);
  }

  /** An unterminated block comment always runs into the last piece: its last byte is
      read at top level, but no cut can follow inside the script. */
  lemma UnterminatedCommentIsLast(s: bytes, i: nat)
    requires i < |s| && Opens(s, i, '/', '*') && NoCommentClose(s, i + 2, |s|)
    ensures TokenEnd(s, i) >= |s| - 1 && CutAfter(s, i) == |s|
  {
    BlockRunsOut(s, i + 2);
    if TokenEnd(s, i) < |s| {
      OneByteToken(s, |s| - 1);
    }
  }

  lemma {:induction false} BlockRunsOut(s: bytes, i: nat)
    requires i <= |s| && NoCommentClose(s, i, |s|)
    ensures BlockEnd(s, i) >= |s| - 1
    decreases |s| - i
  {
    if i + 1 < |s| {
      assert !Opens(s, i, '*', '/');
      BlockRunsOut(s, i + 1);
    }
  }
}
