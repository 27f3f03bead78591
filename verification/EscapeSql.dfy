/** `escape_sql` of network/security/mod.rs: four replacement passes over the whole string. */
module EscapeSql {
  import opened Prelude

  /** `str::replace` with a one-character pattern. */
  function Replace(s: string, c: char, to: string): string {
    if s == [] then [] else (if s[0] == c then to else [s[0]]) + Replace(s[1..], c, to)
  }

  function Escape(input: string): string {
    Replace(Replace(Replace(Replace(input, '\'', "''"), '\\', "\\\\"), '%', "\\%"), '_', "\\_")
  }

  // ---------- One pass over the characters ----------

  /** What becomes of a single character. */
  function EscapedChar(c: char): string {
    if c == '\'' then "''"
    else if c == '\\' then "\\\\"
    else if c == '%' then "\\%"
    else if c == '_' then "\\_"
    else [c]
  }

  function CharByChar(s: string): string {
    if s == [] then [] else EscapedChar(s[0]) + CharByChar(s[1..])
  }

  lemma {:induction false} ReplaceAppend(a: string, b: string, c: char, to: string)
    ensures Replace(a + b, c, to) == Replace(a, c, to) + Replace(b, c, to)
  {
    if a == [] {
      assert a + b == b;
    } else {
      assert (a + b)[1..] == a[1..] + b;
      ReplaceAppend(a[1..], b, c, to);
    }
  }

  lemma EscapeAppend(a: string, b: string)
    ensures Escape(a + b) == Escape(a) + Escape(b)
  {
    ReplaceAppend(a, b, '\'', "''");
    var a1, b1 := Replace(a, '\'', "''"), Replace(b, '\'', "''");
    ReplaceAppend(a1, b1, '\\', "\\\\");
    var a2, b2 := Replace(a1, '\\', "\\\\"), Replace(b1, '\\', "\\\\");
    ReplaceAppend(a2, b2, '%', "\\%");
    ReplaceAppend(Replace(a2, '%', "\\%"), Replace(b2, '%', "\\%"), '_', "\\_");
  }

  lemma ReplaceOne(x: char, c: char, to: string)
    ensures Replace([x], c, to) == if x == c then to else [x]
  {
  }

  lemma ReplaceTwo(x: char, y: char, c: char, to: string)
    ensures Replace([x, y], c, to) == (if x == c then to else [x]) + (if y == c then to else [y])
  {
    assert [x, y] == [x] + [y];
    ReplaceAppend([x], [y], c, to);
    ReplaceOne(x, c, to);
    ReplaceOne(y, c, to);
  }

  lemma EscapeOne(x: char)
    ensures Escape([x]) == EscapedChar(x)
  {
    ReplaceOne(x, '\'', "''");
    ReplaceOne(x, '\\', "\\\\");
    ReplaceOne(x, '%', "\\%");
    ReplaceOne(x, '_', "\\_");
    ReplaceTwo('\'', '\'', '\\', "\\\\");
    ReplaceTwo('\'', '\'', '%', "\\%");
    ReplaceTwo('\'', '\'', '_', "\\_");
    ReplaceTwo('\\', '\\', '%', "\\%");
    ReplaceTwo('\\', '\\', '_', "\\_");
    ReplaceTwo('\\', '%', '_', "\\_");
  }

  /** The four passes are one map over the characters: the backslashes added by the last two come after
      the pass that doubles backslashes. */
  lemma {:induction false} FourPassesAreOne(s: string)
    ensures Escape(s) == CharByChar(s)
  {
    if s != [] {
      FourPassesAreOne(s[1..]);
      assert s == [s[0]] + s[1..];
      EscapeAppend([s[0]], s[1..]);
      EscapeOne(s[0]);
    }
  }

  /** The passes with the doubling of backslashes moved to the end. */
  function DoubledLast(input: string): string {
    Replace(Replace(Replace(Replace(input, '\'', "''"), '%', "\\%"), '_', "\\_"), '\\', "\\\\")
  }

  /** The characters whose escape brings in a new backslash. */
  predicate Wildcard(c: char) {
    c == '%' || c == '_'
  }

  function Wildcards(s: string): nat {
    if s == [] then 0 else (if Wildcard(s[0]) then 1 else 0) + Wildcards(s[1..])
  }

  lemma DoubledLastAppend(a: string, b: string)
    ensures DoubledLast(a + b) == DoubledLast(a) + DoubledLast(b)
  {
    ReplaceAppend(a, b, '\'', "''");
    var a1, b1 := Replace(a, '\'', "''"), Replace(b, '\'', "''");
    ReplaceAppend(a1, b1, '%', "\\%");
    var a2, b2 := Replace(a1, '%', "\\%"), Replace(b1, '%', "\\%");
    ReplaceAppend(a2, b2, '_', "\\_");
    ReplaceAppend(Replace(a2, '_', "\\_"), Replace(b2, '_', "\\_"), '\\', "\\\\");
  }

  lemma DoubledLastOne(x: char)
    ensures DoubledLast([x]) == if Wildcard(x) then "\\\\" + [x] else EscapedChar(x)
  {
    ReplaceOne(x, '\'', "''");
    ReplaceOne(x, '%', "\\%");
    ReplaceOne(x, '_', "\\_");
    ReplaceOne(x, '\\', "\\\\");
    ReplaceTwo('\'', '\'', '%', "\\%");
    ReplaceTwo('\'', '\'', '_', "\\_");
    ReplaceTwo('\'', '\'', '\\', "\\\\");
    ReplaceTwo('\\', '%', '_', "\\_");
    ReplaceTwo('\\', '%', '\\', "\\\\");
    ReplaceTwo('\\', '_', '\\', "\\\\");
  }

  /** Each wildcard then comes out one character longer, and nothing else differs. */
  lemma {:induction false} DoubledLastLonger(s: string)
    ensures |DoubledLast(s)| == |Escape(s)| + Wildcards(s)
    ensures Wildcards(s) == 0 ==> DoubledLast(s) == Escape(s)
  {
    if s != [] {
      DoubledLastLonger(s[1..]);
      assert s == [s[0]] + s[1..];
      EscapeAppend([s[0]], s[1..]);
      EscapeOne(s[0]);
      DoubledLastAppend([s[0]], s[1..]);
      DoubledLastOne(s[0]);
    }
  }

  lemma {:induction false} WildcardsCount(s: string)
    ensures Wildcards(s) > 0 <==> '%' in s || '_' in s
  {
    if s != [] {
      WildcardsCount(s[1..]);
      assert s == [s[0]] + s[1..];
    }
  }

  /** The doubling pass has its place: moved last it gives another result exactly for the strings that hold
      a wildcard. */
  lemma OrderMatters(s: string)
    ensures DoubledLast(s) != Escape(s) <==> '%' in s || '_' in s
  {
    DoubledLastLonger(s);
    WildcardsCount(s);
  }

  // ---------- The way back ----------

  /** The characters that only occur escaped. */
  predicate Special(c: char) {
    c == '\'' || c == '\\' || c == '%' || c == '_'
  }

  predicate Pair(c: char, d: char) {
    (c == '\'' && d == '\'') || (c == '\\' && (d == '\\' || d == '%' || d == '_'))
  }

  /** Undo the escapes; text that no escape produces is an error. */
  function Unescape(w: string): Option<string> {
    if w == [] then Some([])
    else if !Special(w[0]) then
      (match Unescape(w[1..]) case None => None case Some(r) => Some([w[0]] + r))
    else if |w| >= 2 && Pair(w[0], w[1]) then
      (match Unescape(w[2..]) case None => None case Some(r) => Some([w[1]] + r))
    else None
  }

  lemma {:induction false} UnescapeEscape(s: string)
    ensures Unescape(Escape(s)) == Some(s)
  {
    FourPassesAreOne(s);
    if s != [] {
      UnescapeEscape(s[1..]);
      FourPassesAreOne(s[1..]);
      var e, rest := EscapedChar(s[0]), CharByChar(s[1..]);
      assert (e + rest)[|e|..] == rest;
      assert s == [s[0]] + s[1..];
    }
  }

  /** Different inputs have different escapes. */
  lemma EscapeIsInjective(a: string, b: string)
    requires Escape(a) == Escape(b)
    ensures a == b
  {
    UnescapeEscape(a);
    UnescapeEscape(b);
  }

  lemma {:induction false} EscapeUnescape(w: string)
    requires Unescape(w).Some?
    ensures Escape(Unescape(w).value) == w
  {
    var s := Unescape(w).value;
    FourPassesAreOne(s);
    if w != [] {
      var n := if Special(w[0]) then 2 else 1;
      EscapeUnescape(w[n..]);
      FourPassesAreOne(Unescape(w[n..]).value);
      assert s[1..] == Unescape(w[n..]).value;
      assert w == w[..n] + w[n..];
      assert w[..n] == EscapedChar(s[0]);
    }
  }

  /** Exactly the strings the decoder accepts are escapes of something. */
  lemma EscapedIff(w: string)
    ensures (exists s :: Escape(s) == w) <==> Unescape(w).Some?
  {
    if s :| Escape(s) == w {
      UnescapeEscape(s);
    }
    if Unescape(w).Some? {
      EscapeUnescape(w);
    }
  }
}
