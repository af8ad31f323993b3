/** The migration runner's SQL splitter: a reference lexer, the statements it
    defines, and the index-hopping loop that computes them. */
module SqlSplit {

  /** Scripts are byte strings. Nothing here depends on the range of a byte. */
  type byte = char
  type bytes = seq<byte>

  predicate IsSpace(b: byte)
  {
    b == ' ' || '\t' <= b <= '\r'
  }

  predicate IsDollarTagByte(b: byte)
  {
    'a' <= b <= 'z' || 'A' <= b <= 'Z' || '0' <= b <= '9' || b == '_'
  }

  // ---------------------------------------------------- the reference lexer

  /** The first newline at or after i, or the end. */
  function LineEnd(s: bytes, i: nat): (r: nat)
    requires i <= |s|
    ensures i <= r <= |s|
    decreases |s| - i
  {
    if i == |s| || s[i] == '\n' then i else LineEnd(s, i + 1)
  }

  /** Past the first closing mark at or after i. Without one, before the last
      byte, which the lexer then reads at top level. */
  function BlockEnd(s: bytes, i: nat): (r: nat)
    requires i <= |s|
    ensures i <= r <= |s|
    decreases |s| - i
  {
    if i + 1 >= |s| then i
    else if s[i] == '*' && s[i + 1] == '/' then i + 2
    else BlockEnd(s, i + 1)
  }

  /** Past the quote that closes a literal whose body starts at i. */
  function SingleEnd(s: bytes, i: nat): (r: nat)
    requires i <= |s|
    ensures i <= r <= |s|
    decreases |s| - i
  {
    if i == |s| then i
    else if s[i] != '\'' then SingleEnd(s, i + 1)
    else if i + 1 < |s| && s[i + 1] == '\'' then SingleEnd(s, i + 2)
    else i + 1
  }

  function DoubleEnd(s: bytes, i: nat): (r: nat)
    requires i <= |s|
    ensures i <= r <= |s|
    decreases |s| - i
  {
    if i == |s| then i else if s[i] == '"' then i + 1 else DoubleEnd(s, i + 1)
  }

  /** Past the '$' that ends a dollar tag whose name continues at i, or 0. */
  function TagEnd(s: bytes, i: nat): (r: nat)
    requires i <= |s|
    ensures r == 0 || (i < r <= |s| && s[r - 1] == '$')
    decreases |s| - i
  {
    if i == |s| then 0
    else if s[i] == '$' then i + 1
    else if IsDollarTagByte(s[i]) then TagEnd(s, i + 1)
    else 0
  }

  predicate OccursAt(s: bytes, sub: bytes, k: nat)
  {
    k + |sub| <= |s| && s[k..k + |sub|] == sub
  }

  /** The text s[a..b] occurs again at p. */
  predicate Repeats(s: bytes, a: nat, b: nat, p: nat)
    requires a <= b <= |s|
  {
    OccursAt(s, s[a..b], p)
  }

  /** Past the first repetition of the tag s[a..b] at or after p, or the end. */
  function QuoteEnd(s: bytes, a: nat, b: nat, p: nat): (r: nat)
    requires a <= b <= |s| && p <= |s|
    ensures p <= r <= |s| && (r == |s| || p + (b - a) <= r)
    decreases |s| - p
  {
    if Repeats(s, a, b, p) then p + (b - a)
    else if p == |s| then p
    else QuoteEnd(s, a, b, p + 1)
  }

  function DollarEnd(s: bytes, i: nat): (r: nat)
    requires i < |s|
    ensures i < r <= |s|
  {
    var b := TagEnd(s, i + 1);
    if b == 0 then i + 1 else QuoteEnd(s, i, b, b)
  }

  predicate Opens(s: bytes, i: nat, a: byte, b: byte)
  {
    i + 1 < |s| && s[i] == a && s[i + 1] == b
  }

  /** Past the token that starts at i. */
  function TokenEnd(s: bytes, i: nat): (r: nat)
    requires i < |s|
    ensures i < r <= |s|
  {
    if Opens(s, i, '-', '-') then LineEnd(s, i + 2)
    else if Opens(s, i, '/', '*') then BlockEnd(s, i + 2)
    else if s[i] == '\'' then SingleEnd(s, i + 1)
    else if s[i] == '"' then DoubleEnd(s, i + 1)
    else if s[i] == '$' then DollarEnd(s, i)
    else i + 1
  }

  /** Past the first ';' that is a token of its own, or the end. */
  function CutAfter(s: bytes, i: nat): (r: nat)
    requires i <= |s|
    ensures i <= r <= |s| && (i < |s| ==> i < r)
    decreases |s| - i
  {
    if i == |s| then i
    else if s[i] == ';' then i + 1
    else CutAfter(s, TokenEnd(s, i))
  }

  function TrimLeft(s: bytes): bytes
  {
    if s != [] && IsSpace(s[0]) then TrimLeft(s[1..]) else s
  }

  function TrimRight(s: bytes): bytes
  {
    if s != [] && IsSpace(s[|s| - 1]) then TrimRight(s[..|s| - 1]) else s
  }

  function Trim(s: bytes): bytes
  {
    TrimRight(TrimLeft(s))
  }

  function NonBlank(s: bytes): seq<bytes>
  {
    if Trim(s) == [] then [] else [Trim(s)]
  }

  /** The script cut after every top-level ';', from position i on. */
  function Chunks(s: bytes, i: nat): seq<bytes>
    requires i <= |s|
    decreases |s| - i
  {
    if i == |s| then [] else [s[i..CutAfter(s, i)]] + Chunks(s, CutAfter(s, i))
  }

  function TrimAll(parts: seq<bytes>): seq<bytes>
  {
    if parts == [] then [] else NonBlank(parts[0]) + TrimAll(parts[1..])
  }

  function StatementsFrom(s: bytes, i: nat): seq<bytes>
    requires i <= |s|
  {
    TrimAll(Chunks(s, i))
  }

  /** The statements of a script. */
  function Statements(s: bytes): seq<bytes>
  {
    StatementsFrom(s, 0)
  }

  lemma Unfold(s: bytes, i: nat, c: nat)
    requires i < |s| && c == CutAfter(s, i)
    ensures StatementsFrom(s, i) == NonBlank(s[i..c]) + StatementsFrom(s, c)
  {
    assert Chunks(s, i)[1..] == Chunks(s, c);
  }

  // ------------------------------------------------------------ the splitter

  /** The contract of the library's substring search, as a position in s: the
      first occurrence of sub at or after from. */
  function Index(s: bytes, sub: bytes, from: nat): (i: int)
    requires from <= |s|
    ensures i == -1 || (from <= i && OccursAt(s, sub, i))
    ensures forall k: nat :: from <= k && OccursAt(s, sub, k) ==> 0 <= i <= k
    decreases |s| - from
  {
    if OccursAt(s, sub, from) then from
    else if from == |s| then -1
    else Index(s, sub, from + 1)
  }

  lemma Copy(sql: bytes, start: nat, i: nat, j: nat, cur0: bytes)
    requires start <= i <= j <= |sql|
    ensures cur0 + sql[start..i] + sql[i..j] == cur0 + sql[start..j]
    ensures j == i + 1 ==> sql[i..j] == [sql[i]]
  {
  }

  lemma Join(sql: bytes, start: nat, i: nat, j: nat)
    requires start <= i <= j <= |sql|
    ensures sql[start..i] + sql[i..j] == sql[start..j]
    ensures j == i + 1 ==> sql[i..j] == [sql[i]]
  {
  }

  method CopyLine(sql: bytes, start: nat, cur0: bytes) returns (i: nat, cur: bytes)
    requires Opens(sql, start, '-', '-')
    ensures i == TokenEnd(sql, start) && cur == cur0 + sql[start..i]
  {
    i, cur := start, cur0;
    while i < |sql| && sql[i] != '\n'
      invariant start <= i <= |sql| && cur == cur0 + sql[start..i]
      invariant LineEnd(sql, start) == LineEnd(sql, i)
    {
      Copy(sql, start, i, i + 1, cur0);
      cur := cur + [sql[i]];
      i := i + 1;
    }
    assert LineEnd(sql, start) == LineEnd(sql, start + 1) == LineEnd(sql, start + 2);
  }

  method CopyBlock(sql: bytes, start: nat, cur0: bytes) returns (i: nat, cur: bytes)
    requires Opens(sql, start, '/', '*')
    ensures i == TokenEnd(sql, start) && cur == cur0 + sql[start..i]
  {
    cur := cur0 + ['/'] + ['*'];
    i := start + 2;
    assert sql[start..i] == ['/'] + ['*'];
    while i + 1 < |sql| && (sql[i] != '*' || sql[i + 1] != '/')
      invariant start + 2 <= i <= |sql| && cur == cur0 + sql[start..i]
      invariant BlockEnd(sql, start + 2) == BlockEnd(sql, i)
    {
      Copy(sql, start, i, i + 1, cur0);
      cur := cur + [sql[i]];
      i := i + 1;
    }
    if i + 1 < |sql| {
      Copy(sql, start, i, i + 2, cur0);
      assert sql[i..i + 2] == ['*'] + ['/'];
      cur := cur + ['*'] + ['/'];
      i := i + 2;
    }
  }

  method CopySingle(sql: bytes, start: nat, cur0: bytes) returns (i: nat, cur: bytes)
    requires start < |sql| && sql[start] == '\''
    ensures i == TokenEnd(sql, start) && cur == cur0 + sql[start..i]
  {
    cur := cur0 + ['\''];
    i := start + 1;
    while i < |sql|
      invariant start + 1 <= i <= |sql| && cur == cur0 + sql[start..i]
      invariant SingleEnd(sql, start + 1) == SingleEnd(sql, i)
    {
      Copy(sql, start, i, i + 1, cur0);
      if sql[i] == '\'' {
        cur := cur + ['\''];
        i := i + 1;
        if i < |sql| && sql[i] == '\'' {
          Copy(sql, start, i, i + 1, cur0);
          cur := cur + ['\''];
          i := i + 1;
          continue;
        }
        return;
      }
      cur := cur + [sql[i]];
      i := i + 1;
    }
  }

  method CopyDouble(sql: bytes, start: nat, cur0: bytes) returns (i: nat, cur: bytes)
    requires start < |sql| && sql[start] == '"'
    ensures i == TokenEnd(sql, start) && cur == cur0 + sql[start..i]
  {
    cur := cur0 + ['"'];
    i := start + 1;
    while i < |sql| && sql[i] != '"'
      invariant start + 1 <= i <= |sql| && cur == cur0 + sql[start..i]
      invariant DoubleEnd(sql, start + 1) == DoubleEnd(sql, i)
    {
      Copy(sql, start, i, i + 1, cur0);
      cur := cur + [sql[i]];
      i := i + 1;
    }
    if i < |sql| {
      Copy(sql, start, i, i + 1, cur0);
      cur := cur + ['"'];
      i := i + 1;
    }
  }

  /** The scan for the '$' that ends a tag opened at start. */
  method FindTagEnd(sql: bytes, start: nat) returns (tagEnd: int)
    requires start < |sql|
    ensures tagEnd == TagEnd(sql, start + 1) - 1
  {
    tagEnd := -1;
    for j := start + 1 to |sql|
      invariant tagEnd == -1 && TagEnd(sql, start + 1) == TagEnd(sql, j)
    {
      var b := sql[j];
      if b == '$' {
        tagEnd := j;
        return;
      }
      if !IsDollarTagByte(b) {
        return;
      }
    }
  }

  /** The reference lexer finds the same closing tag as a substring search. */
  lemma {:induction false} QuoteEndIsIndex(s: bytes, a: nat, b: nat, p: nat, n: int)
    requires a <= b <= |s| && p <= |s|
    requires n == -1 ==> forall k :: p <= k <= |s| ==> !Repeats(s, a, b, k)
    requires n != -1 ==> p <= n && Repeats(s, a, b, n) && forall k :: p <= k < n ==> !Repeats(s, a, b, k)
    ensures QuoteEnd(s, a, b, p) == if n == -1 then |s| else n + (b - a)
    decreases |s| - p
  {
    if p != n && p < |s| { QuoteEndIsIndex(s, a, b, p + 1, n); }
  }

  method CopyQuoted(sql: bytes, start: nat, open: nat, cur0: bytes) returns (i: nat, cur: bytes)
    requires start <= open <= |sql|
    ensures i == QuoteEnd(sql, start, open, open) && cur == cur0 + sql[open..i]
  {
    var tag := sql[start..open];
    var close := Index(sql, tag, open);
    QuoteEndIsIndex(sql, start, open, open, close);
    if close < 0 {
      cur := cur0 + sql[open..];
      i := |sql|;
    } else {
      Copy(sql, open, close, close + |tag|, cur0);
      cur := cur0 + sql[open..close];
      cur := cur + tag;
      i := close + |tag|;
    }
  }

  method CopyDollar(sql: bytes, start: nat, cur0: bytes) returns (i: nat, cur: bytes)
    requires start < |sql| && sql[start] == '$'
    ensures i == TokenEnd(sql, start) && cur == cur0 + sql[start..i]
  {
    var tagEnd := FindTagEnd(sql, start);
    if tagEnd < 0 {
      i, cur := start + 1, cur0 + ['$'];
    } else {
      cur := cur0 + sql[start..tagEnd + 1];
      i, cur := CopyQuoted(sql, start, tagEnd + 1, cur);
      Copy(sql, start, tagEnd + 1, i, cur0);
    }
  }

  /** The lexer's switch, for every byte but ';'. */
  method CopyToken(sql: bytes, start: nat, cur0: bytes) returns (i: nat, cur: bytes)
    requires start < |sql| && sql[start] != ';'
    ensures i == TokenEnd(sql, start) && cur == cur0 + sql[start..i]
  {
    var c := sql[start];
    if c == '-' && start + 1 < |sql| && sql[start + 1] == '-' {
      i, cur := CopyLine(sql, start, cur0);
    } else if c == '/' && start + 1 < |sql| && sql[start + 1] == '*' {
      i, cur := CopyBlock(sql, start, cur0);
    } else if c == '\'' {
      i, cur := CopySingle(sql, start, cur0);
    } else if c == '"' {
      i, cur := CopyDouble(sql, start, cur0);
    } else if c == '$' {
      i, cur := CopyDollar(sql, start, cur0);
    } else {
      i, cur := start + 1, cur0 + [c];
    }
  }

  method SplitSQL(sql: bytes) returns (out: seq<bytes>)
    ensures out == Statements(sql)
  {
    out := [];
    var cur: bytes := [];
    var i := 0;
    ghost var start := 0;
    while i < |sql|
      invariant start <= i <= |sql| && cur == sql[start..i]
      invariant CutAfter(sql, start) == CutAfter(sql, i)
      invariant Statements(sql) == out + StatementsFrom(sql, start)
      decreases |sql| - i
    {
      ghost var from := i;
      if sql[i] == ';' {
        cur := cur + [';'];
        i := i + 1;
        Join(sql, start, from, i);
        Flush(sql, start, i, out, cur);
        out := out + NonBlank(cur);
        cur := [];
        start := i;
      } else {
        i, cur := CopyToken(sql, i, cur);
        Join(sql, start, from, i);
      }
    }
    if start < |sql| { Flush(sql, start, |sql|, out, cur); }
    out := out + NonBlank(cur);
  }

  lemma Flush(sql: bytes, start: nat, i: nat, out: seq<bytes>, cur: bytes)
    requires start < i <= |sql| && CutAfter(sql, start) == i && cur == sql[start..i]
    ensures out + StatementsFrom(sql, start) == (out + NonBlank(cur)) + StatementsFrom(sql, i)
  {
    Unfold(sql, start, i);
  }
}
