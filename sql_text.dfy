/** How values are embedded in the SQL statements the sharding code sends: addcslashes()
    escaping on the PHP side, and the engine's reading of a single-quoted literal. */
module SqlText {
  import opened Wrappers

  /** The characters State::set escapes, and the ones a literal needs escaped. */
  const Special: set<char> := {'\'', '\\'}

  /** The characters Queue::add escapes. */
  const QuoteOnly: set<char> := {'\''}

  /** addcslashes() for printable characters: each character of `special` gets a
      backslash in front of it, every other character is kept. */
  function AddSlashes(s: string, special: set<char>): (r: string)
    ensures |r| >= |s|
  {
    if s == [] then [] else Escaped(s[0], special) + AddSlashes(s[1..], special)
  }

  /** One character as addcslashes() writes it. */
  function Escaped(c: char, special: set<char>): (r: string)
    ensures r == [c] || r == ['\\', c]
  {
    if c in special then ['\\', c] else [c]
  }

  lemma {:induction false} AddSlashesAppend(a: string, b: string, special: set<char>)
    ensures AddSlashes(a + b, special) == AddSlashes(a, special) + AddSlashes(b, special)
  {
    if a != [] {
      assert (a + b)[1..] == a[1..] + b;
      AddSlashesAppend(a[1..], b, special);
      assert AddSlashes(a + b, special) == Escaped(a[0], special) + AddSlashes(a[1..] + b, special);
    } else {
      assert a + b == b;
    }
  }

  /** The engine reading the body of a single-quoted literal, starting just after the
      opening quote: a backslash makes the next character literal, the first unescaped
      quote closes the literal. The result is the text denoted and the statement text after
      the closing quote, or None when the literal is never closed. */
  function ReadQuoted(s: string): Option<(string, string)>
    decreases |s|
  {
    if s == [] then None
    else if s[0] == '\'' then Some(("", s[1..]))
    else
      var skip := if s[0] == '\\' && |s| >= 2 then 2 else 1;
      Prepend(s[skip - 1], ReadQuoted(s[skip..]))
  }

  /** The reading `o` with one more character `c` in front of the text denoted. */
  function Prepend(c: char, o: Option<(string, string)>): Option<(string, string)> {
    match o
    case None => None
    case Some(p) => Some(([c] + p.0, p.1))
  }

  /** The literal `'...'` for `s` with the escaping State::set applies. */
  function Literal(s: string): string {
    "'" + AddSlashes(s, Special) + "'"
  }

  /** The text a complete literal stands for; None when it is malformed. */
  function Denoted(lit: string): Option<string> {
    if lit == [] || lit[0] != '\'' then None
    else
      match ReadQuoted(lit[1..])
      case Some((v, rest)) => if rest == "" then Some(v) else None
      case None => None
  }

  /** Escaping the quote and, when the text holds one, the backslash lets the engine read
      back exactly the original text, whatever follows the literal in the statement. */
  lemma {:induction false} EscapedReadBack(s: string, rest: string, special: set<char>)
    requires '\'' in special
    requires '\\' in special || '\\' !in s
    ensures ReadQuoted(AddSlashes(s, special) + "'" + rest) == Some((s, rest))
  {
    if s == [] {
      assert AddSlashes(s, special) + "'" + rest == ['\''] + rest;
    } else {
      var t := AddSlashes(s[1..], special) + "'" + rest;
      var e := Escaped(s[0], special);
      EscapedReadBack(s[1..], rest, special);
      assert AddSlashes(s, special) + "'" + rest == e + t;
      ReadOne(s[0], special, t);
      assert [s[0]] + s[1..] == s;
    }
  }

  /** The engine reads one escaped character and goes on after it. */
  lemma ReadOne(c: char, special: set<char>, t: string)
    requires '\'' in special
    requires '\\' in special || c != '\\'
    ensures ReadQuoted(Escaped(c, special) + t) == Prepend(c, ReadQuoted(t))
  {
    if c in special {
      assert (['\\', c] + t)[2..] == t;
    } else {
      assert ([c] + t)[1..] == t;
    }
  }

  lemma LiteralRoundTrip(s: string)
    ensures Denoted(Literal(s)) == Some(s)
  {
    EscapedReadBack(s, "", Special);
    assert Literal(s)[1..] == AddSlashes(s, Special) + "'" + "";
  }

  /** ... but a query that is a single backslash is not read back, whatever the rest of
      the INSERT statement is: the backslash left unescaped swallows the closing quote. */
  lemma QuoteOnlyLosesBackslash(rest: string)
    ensures ReadQuoted(AddSlashes("\\", QuoteOnly) + "'" + rest) != Some(("\\", rest))
  {
    var t := AddSlashes("\\", QuoteOnly) + "'" + rest;
    assert t == ['\\', '\''] + rest;
    assert t[2..] == rest;
  }
}
