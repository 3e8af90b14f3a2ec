/** The "{field}" path template language, as its three scanners read it. */
module PathTemplates {
  /** A template is a run of literal characters and placeholders. */
  datatype Token = Lit(c: char) | Hole(body: string)

  /** The position of the first `c` in `s` from position `i` on, or -1. */
  function IndexFrom(s: string, i: nat, c: char): (r: int)
    requires i <= |s|
    ensures r == -1 || (i <= r < |s| && s[r] == c)
    decreases |s| - i
  {
    if i == |s| then -1 else if s[i] == c then i else IndexFrom(s, i + 1, c)
  }

  lemma {:induction false} IndexIsFirst(s: string, i: nat, c: char)
    requires i <= |s|
    ensures forall j | i <= j < (if IndexFrom(s, i, c) < 0 then |s| else IndexFrom(s, i, c)) :: s[j] != c
    decreases |s| - i
  {
    if i < |s| && s[i] != c {
      IndexIsFirst(s, i + 1, c);
    }
  }

  /** The first occurrence is known by having none before it. */
  lemma {:induction false} IndexIs(s: string, i: nat, c: char, e: nat)
    requires i <= e <= |s| && (e < |s| ==> s[e] == c) && forall j | i <= j < e :: s[j] != c
    ensures IndexFrom(s, i, c) == if e < |s| then e else -1
    decreases |s| - i
  {
    if i < e {
      IndexIs(s, i + 1, c, e);
    }
  }

  /** The position of the brace that closes the placeholder opened at `i`, or -1. */
  function ClosedAt(t: string, i: nat): (end: int)
    requires i < |t|
    ensures end == -1 || i < end < |t|
  {
    if t[i] == '{' then IndexFrom(t, i, '}') else -1
  }

  /** The tokens from position `i` on: a brace opens a placeholder exactly when a closing brace follows,
      and the first one closes it. */
  function TokensAt(t: string, i: nat): seq<Token>
    requires i <= |t|
    decreases |t| - i
  {
    if i == |t| then [] else
      var end := ClosedAt(t, i);
      if end < 0 then [Lit(t[i])] + TokensAt(t, i + 1) else [Hole(t[i + 1..end])] + TokensAt(t, end + 1)
  }

  function Tokens(t: string): seq<Token> {
    TokensAt(t, 0)
  }

  /** Every token's contribution, in order. */
  function FlatMap<T>(f: Token -> seq<T>, tokens: seq<Token>): seq<T> {
    if tokens == [] then [] else f(tokens[0]) + FlatMap(f, tokens[1..])
  }

  function Text(token: Token): string {
    if token.Lit? then [token.c] else "{" + token.body + "}"
  }

  /** The field a placeholder names: its "=glob" suffix is not part of the name. */
  function Name(body: string): string {
    var eq := IndexFrom(body, 0, '=');
    if eq >= 0 then body[..eq] else body
  }

  /** What pathFields reports for a token: the names that are not empty. */
  function FieldsOf(token: Token): seq<string> {
    if token.Hole? && Name(token.body) != "" then [Name(token.body)] else []
  }

  /** What gin's router is given for a token. */
  function GinText(token: Token): string {
    match token
    case Lit(c) => [c]
    case Hole(body) => if IndexFrom(body, 0, '=') >= 0 then "*" + Name(body) else ":" + body
  }

  /** The parameters gin's router is given: the notation without its first character. */
  function GinNames(token: Token): seq<string> {
    if token.Hole? then [GinText(token)[1..]] else []
  }

  /** A placeholder without a name: "{}", or "{=" and a glob. */
  predicate Nameless(token: Token) {
    token.Hole? && (token.body == "" || token.body[0] == '=')
  }

  lemma NamelessIsEmpty(token: Token)
    requires token.Hole?
    ensures GinNames(token) == [Name(token.body)]
    ensures Nameless(token) <==> Name(token.body) == ""
  {
  }

  /** What stands before the first '=' is the name; gin is given it after a '*' if there is a glob, and after a ':' else. */
  lemma NameStandsBeforeGlob(name: string, glob: string)
    requires '=' !in name
    ensures Name(name) == name && Name(name + "=" + glob) == name
    ensures GinText(Hole(name)) == ":" + name && GinText(Hole(name + "=" + glob)) == "*" + name
    ensures FieldsOf(Hole(name)) == FieldsOf(Hole(name + "=" + glob)) == if name == "" then [] else [name]
  {
    IndexIs(name, 0, '=', |name|);
    var whole := name + "=" + glob;
    assert forall j | 0 <= j < |name| :: whole[j] == name[j];
    IndexIs(whole, 0, '=', |name|);
    assert whole[..|name|] == name;
  }

  /** pathFields and gin's router name the same fields, in the same order, exactly when the template has no
      nameless placeholder; otherwise gin is given more. */
  lemma {:induction false} SameFieldsUnlessNameless(tokens: seq<Token>)
    ensures FlatMap(FieldsOf, tokens) == FlatMap(GinNames, tokens) <==> forall token | token in tokens :: !Nameless(token)
    ensures |FlatMap(FieldsOf, tokens)| <= |FlatMap(GinNames, tokens)|
    ensures |FlatMap(FieldsOf, tokens)| == |FlatMap(GinNames, tokens)| ==> forall token | token in tokens :: !Nameless(token)
  {
    if tokens != [] {
      SameFieldsUnlessNameless(tokens[1..]);
      assert forall token :: token in tokens <==> token == tokens[0] || token in tokens[1..];
      if tokens[0].Hole? {
        NamelessIsEmpty(tokens[0]);
      }
    }
  }

  lemma {:induction false} NoClosingBraceNoField(t: string, i: nat)
    requires i <= |t| && forall j | i <= j < |t| :: t[j] != '}'
    ensures FlatMap(FieldsOf, TokensAt(t, i)) == []
    decreases |t| - i
  {
    if i < |t| {
      NoClosingBraceNoField(t, i + 1);
      FlatFrom(FieldsOf, Lit(t[i]), TokensAt(t, i + 1));
    }
  }

  lemma FlatFrom<T>(f: Token -> seq<T>, token: Token, tokens: seq<Token>)
    ensures FlatMap(f, [token] + tokens) == f(token) + FlatMap(f, tokens)
  {
    assert ([token] + tokens)[1..] == tokens;
  }

  lemma {:induction false} FlatAppend<T>(f: Token -> seq<T>, a: seq<Token>, b: seq<Token>)
    ensures FlatMap(f, a + b) == FlatMap(f, a) + FlatMap(f, b)
  {
    if a == [] {
      assert a + b == b;
    } else {
      FlatAppend(f, a[1..], b);
      assert a + b == [a[0]] + (a[1..] + b);
      FlatFrom(f, a[0], a[1..] + b);
    }
  }

  /** The token at position `i`, and the position after it. */
  function TokenAt(t: string, i: nat): (r: (Token, nat))
    requires i < |t|
    ensures i < r.1 <= |t|
  {
    var end := ClosedAt(t, i);
    if end < 0 then (Lit(t[i]), i + 1) else (Hole(t[i + 1..end]), end + 1)
  }

  lemma TokenSpells(t: string, i: nat)
    requires i < |t|
    ensures var (token, next) := TokenAt(t, i); Text(token) + t[next..] == t[i..]
  {
    var (token, next) := TokenAt(t, i);
    assert Text(token) == t[i..next];
  }

  /** No placeholder contains a closing brace, and no opening brace that one could close is a literal. */
  ghost predicate Reads(tokens: seq<Token>) {
    && (forall i | 0 <= i < |tokens| && tokens[i].Hole? :: '}' !in tokens[i].body)
    && (forall i | 0 <= i < |tokens| && tokens[i] == Lit('{') :: '}' !in FlatMap(Text, tokens[i + 1..]))
  }

  lemma ReadsHead(token: Token, rest: seq<Token>)
    requires Reads([token] + rest)
    ensures Reads(rest) && (token.Hole? ==> '}' !in token.body) && (token == Lit('{') ==> '}' !in FlatMap(Text, rest))
  {
    var all := [token] + rest;
    assert all[0] == token && all[1..] == rest;
    assert forall i | 0 <= i < |rest| :: rest[i] == all[i + 1] && rest[i + 1..] == all[i + 2..];
  }

  lemma ReadsCons(token: Token, rest: seq<Token>)
    requires Reads(rest) && (token.Hole? ==> '}' !in token.body) && (token == Lit('{') ==> '}' !in FlatMap(Text, rest))
    ensures Reads([token] + rest)
  {
    var all := [token] + rest;
    assert all[0] == token && all[1..] == rest;
    assert forall i | 0 < i < |all| :: all[i] == rest[i - 1] && all[i + 1..] == rest[i..];
  }

  /** What a token says of the braces in the template. */
  lemma TokenBraces(t: string, i: nat)
    requires i < |t|
    ensures var (token, next) := TokenAt(t, i); (token.Hole? ==> '}' !in token.body) && (token == Lit('{') ==> '}' !in t[next..])
  {
    IndexIsFirst(t, i, '}');
  }

  /** The tokens spell out the template ... */
  lemma {:induction false} TokensSpell(t: string, i: nat)
    requires i <= |t|
    ensures FlatMap(Text, TokensAt(t, i)) == t[i..]
    decreases |t| - i
  {
    if i < |t| {
      var (token, next) := TokenAt(t, i);
      TokensSpell(t, next);
      TokenSpells(t, i);
      FlatFrom(Text, token, TokensAt(t, next));
    }
  }

  /** ... and read it in the one possible way. */
  lemma {:induction false} TokensSpellTemplate(t: string, i: nat)
    requires i <= |t|
    ensures FlatMap(Text, TokensAt(t, i)) == t[i..]
    ensures Reads(TokensAt(t, i))
    decreases |t| - i
  {
    TokensSpell(t, i);
    if i < |t| {
      var (token, next) := TokenAt(t, i);
      TokensSpellTemplate(t, next);
      TokenBraces(t, i);
      ReadsCons(token, TokensAt(t, next));
    }
  }

  lemma TokensAtToken(t: string, i: nat)
    requires i < |t|
    ensures TokensAt(t, i) == [TokenAt(t, i).0] + TokensAt(t, TokenAt(t, i).1)
  {
  }

  lemma OnlyHead(t: string, i: nat, token: Token, rest: seq<Token>)
    requires i <= |t| && Reads([token] + rest) && FlatMap(Text, [token] + rest) == t[i..]
    ensures i < |t| && TokenAt(t, i).0 == token && Reads(rest) && FlatMap(Text, rest) == t[TokenAt(t, i).1..]
  {
    ReadsHead(token, rest);
    FlatFrom(Text, token, rest);
    TailIs(t, i, Text(token), FlatMap(Text, rest));
    HeadIs(t, i, token, FlatMap(Text, rest));
  }

  /** There is no other way to read it. */
  lemma {:induction false} OnlyReading(t: string, i: nat, tokens: seq<Token>)
    requires i <= |t| && Reads(tokens) && FlatMap(Text, tokens) == t[i..]
    ensures tokens == TokensAt(t, i)
    decreases |tokens|
  {
    if tokens != [] {
      var token, rest := tokens[0], tokens[1..];
      assert tokens == [token] + rest;
      OnlyHead(t, i, token, rest);
      OnlyReading(t, TokenAt(t, i).1, rest);
      TokensAtToken(t, i);
    }
  }

  lemma TailIs(t: string, i: nat, text: string, rest: string)
    requires i <= |t| && t[i..] == text + rest
    ensures i + |text| <= |t| && t[i + |text|..] == rest
  {
    assert |t[i..]| == |text| + |rest|;
    assert t[i..][|text|..] == rest;
  }

  lemma HoleIs(t: string, i: nat, body: string, rest: string)
    requires i <= |t| && t[i..] == "{" + body + "}" + rest && '}' !in body
    ensures i < |t| && TokenAt(t, i) == (Hole(body), i + |body| + 2)
  {
    var u, end := t[i..], i + 1 + |body|;
    assert |u| == |body| + 2 + |rest|;
    assert u[0] == '{' && u[1 + |body|] == '}' && u[1..1 + |body|] == body;
    assert t[i + 1..end] == u[1..1 + |body|];
    assert forall x | i < x < end :: t[x] == body[x - i - 1];
    IndexIs(t, i, '}', end);
  }

  lemma LitIs(t: string, i: nat, c: char, rest: string)
    requires i <= |t| && t[i..] == [c] + rest && (c == '{' ==> '}' !in rest)
    ensures i < |t| && TokenAt(t, i) == (Lit(c), i + 1)
  {
    var u := t[i..];
    assert u[0] == c && u[1..] == rest;
    if c == '{' {
      assert forall j | i < j < |t| :: t[j] == u[1..][j - i - 1];
      IndexIs(t, i, '}', |t|);
    }
  }

  lemma HeadIs(t: string, i: nat, token: Token, rest: string)
    requires i <= |t| && t[i..] == Text(token) + rest
    requires (token.Hole? ==> '}' !in token.body) && (token == Lit('{') ==> '}' !in rest)
    ensures i < |t| && TokenAt(t, i) == (token, i + |Text(token)|)
  {
    match token
    case Hole(body) => HoleIs(t, i, body, rest);
    case Lit(c) => LitIs(t, i, c, rest);
  }

  lemma FlatStep<T>(f: Token -> seq<T>, t: string, i: nat, done: seq<T>)
    requires i < |t|
    ensures var (token, next) := TokenAt(t, i);
            done + FlatMap(f, TokensAt(t, i)) == (done + f(token)) + FlatMap(f, TokensAt(t, next))
  {
    var (token, next) := TokenAt(t, i);
    assert TokensAt(t, i) == [token] + TokensAt(t, next);
    FlatFrom(f, token, TokensAt(t, next));
  }

  /** A scan from position `i` on that has collected `done` so far. */
  function ScanFrom<T>(f: Token -> seq<T>, t: string, i: nat, done: seq<T>): seq<T>
    requires i <= |t|
    decreases |t| - i
  {
    if i == |t| then done else var (token, next) := TokenAt(t, i); ScanFrom(f, t, next, done + f(token))
  }

  lemma {:induction false} ScanCollects<T>(f: Token -> seq<T>, t: string, i: nat, done: seq<T>)
    requires i <= |t|
    ensures ScanFrom(f, t, i, done) == done + FlatMap(f, TokensAt(t, i))
    decreases |t| - i
  {
    if i < |t| {
      var (token, next) := TokenAt(t, i);
      FlatStep(f, t, i, done);
      ScanCollects(f, t, next, done + f(token));
    }
  }

  lemma ScanIsFlatMap<T>(f: Token -> seq<T>, t: string)
    ensures ScanFrom(f, t, 0, []) == FlatMap(f, Tokens(t))
  {
    ScanCollects(f, t, 0, []);
  }

  lemma NoFieldsLeft(t: string, i: nat, done: seq<string>)
    requires i <= |t| && IndexFrom(t, i, '}') < 0
    ensures ScanFrom(FieldsOf, t, i, done) == done
  {
    IndexIsFirst(t, i, '}');
    NoClosingBraceNoField(t, i);
    ScanCollects(FieldsOf, t, i, done);
  }

  // ---------------------------------------------------------------- the scanners

  /** pathFields: the names of the template's placeholders, in order, without the empty ones. */
  method PathFields(template: string) returns (fields: seq<string>)
    ensures fields == FlatMap(FieldsOf, Tokens(template))
  {
    ScanIsFlatMap(FieldsOf, template);
    fields := [];
    var i := 0;
    ghost var all := ScanFrom(FieldsOf, template, 0, []);
    while i < |template|
      invariant 0 <= i <= |template|
      invariant ScanFrom(FieldsOf, template, i, fields) == all
    {
      var found := [];
      if template[i] != '{' {
        i := i + 1;
      } else {
        var end := IndexFrom(template, i, '}');
        if end < 0 {
          NoFieldsLeft(template, i, fields);
          break;
        }
        var field := Name(template[i + 1..end]);
        found := if field != "" then [field] else [];
        i := end + 1;
      }
      fields := fields + found;
    }
  }

  /** ginStylePath: the same placeholders in gin's notation. */
  method GinStylePath(template: string) returns (r: string)
    ensures r == FlatMap(GinText, Tokens(template))
  {
    ScanIsFlatMap(GinText, template);
    r := [];
    var i := 0;
    ghost var all := ScanFrom(GinText, template, 0, []);
    while i < |template|
      invariant 0 <= i <= |template|
      invariant ScanFrom(GinText, template, i, r) == all
    {
      var end := if template[i] == '{' then IndexFrom(template, i, '}') else -1;
      var text;
      if end <= i {
        text := [template[i]];
        i := i + 1;
      } else {
        var field := template[i + 1..end];
        var eq := IndexFrom(field, 0, '=');
        text := if eq >= 0 then "*" + field[..eq] else ":" + field;
        i := end + 1;
      }
      r := r + text;
    }
  }
}
