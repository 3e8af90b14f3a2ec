/** Building a path from a message, routing it, and binding it back into a message. */
module PathRoundTrip {
  import opened PathTemplates
  import opened Scalars
  import opened FieldBinding
  import opened Wrappers

  // ---------------------------------------------------------------- BuildPath and BindPath

  /** What BuildPath writes for a token. */
  function BuiltText(d: Desc, m: Message, token: Token): Result<string> {
    match token
    case Lit(c) => Ok([c])
    case Hole(body) => FieldString(d, m, Name(body))
  }

  function TextOf(r: Result<string>): string {
    if r.Ok? then r.value else ""
  }

  function Written(d: Desc, m: Message): Token -> string {
    token => TextOf(BuiltText(d, m, token))
  }

  predicate Buildable(d: Desc, m: Message, tokens: seq<Token>) {
    forall i | 0 <= i < |tokens| :: BuiltText(d, m, tokens[i]).Ok?
  }

  /** The built path: an error if any placeholder is one, else every token's text. */
  function BuiltPath(d: Desc, m: Message, tokens: seq<Token>): Result<string> {
    if Buildable(d, m, tokens) then Ok(FlatMap(Written(d, m), tokens)) else Err
  }

  lemma {:induction false} BuildableFrom(d: Desc, m: Message, t: string, i: nat)
    requires i < |t|
    ensures var (token, next) := TokenAt(t, i);
            Buildable(d, m, TokensAt(t, i)) <==> BuiltText(d, m, token).Ok? && Buildable(d, m, TokensAt(t, next))
  {
    var (token, next) := TokenAt(t, i);
    BuildableCons(d, m, token, TokensAt(t, next));
  }

  lemma BuildableCons(d: Desc, m: Message, token: Token, rest: seq<Token>)
    ensures Buildable(d, m, [token] + rest) <==> BuiltText(d, m, token).Ok? && Buildable(d, m, rest)
  {
    var all := [token] + rest;
    assert all[0] == token && forall j | 0 <= j < |rest| :: all[j + 1] == rest[j];
    assert forall j | 0 < j < |all| :: all[j] == rest[j - 1];
  }

  /** The scan from position `i` on, with `b` written so far: the first error ends it. */
  function BuildFrom(d: Desc, m: Message, t: string, i: nat, b: string): Result<string>
    requires i <= |t|
    decreases |t| - i
  {
    if i == |t| then Ok(b) else
      var (token, next) := TokenAt(t, i);
      var text := BuiltText(d, m, token);
      if text.Ok? then BuildFrom(d, m, t, next, b + text.value) else Err
  }

  lemma {:induction false} BuildFromIsBuiltPath(d: Desc, m: Message, t: string, i: nat, b: string)
    requires i <= |t|
    ensures BuildFrom(d, m, t, i, b) ==
            if Buildable(d, m, TokensAt(t, i)) then Ok(b + FlatMap(Written(d, m), TokensAt(t, i))) else Err
    decreases |t| - i
  {
    if i < |t| {
      var (token, next) := TokenAt(t, i);
      var text := BuiltText(d, m, token);
      BuildableFrom(d, m, t, i);
      if text.Ok? {
        FlatStep(Written(d, m), t, i, b);
        BuildFromIsBuiltPath(d, m, t, next, b + text.value);
      }
    } else {
      assert b + FlatMap(Written(d, m), []) == b;
    }
  }

  lemma NothingBefore(s: string)
    ensures "" + s == s
  {
  }

  lemma BuildFromStart(d: Desc, m: Message, t: string)
    ensures BuildFrom(d, m, t, 0, "") == BuiltPath(d, m, Tokens(t))
  {
    BuildFromIsBuiltPath(d, m, t, 0, "");
    NothingBefore(FlatMap(Written(d, m), TokensAt(t, 0)));
  }

  /** BuildPath: literals as they are, placeholders as their field's string. */
  method BuildPath(template: string, d: Desc, m: Message) returns (r: Result<string>)
    ensures r == BuiltPath(d, m, Tokens(template))
  {
    BuildFromStart(d, m, template);
    ghost var result := BuiltPath(d, m, Tokens(template));
    var b := "";
    var i: nat := 0;
    while i < |template|
      invariant 0 <= i <= |template|
      invariant BuildFrom(d, m, template, i, b) == result
    {
      var text, next := BuildToken(template, i, d, m);
      if text.Err? {
        return Err;
      }
      b, i := b + text.value, next;
    }
    return Ok(b);
  }

  /** One turn of the loop: what is written for the token at `i`, and where the next one is. */
  method BuildToken(template: string, i: nat, d: Desc, m: Message) returns (text: Result<string>, next: nat)
    requires i < |template|
    ensures next == TokenAt(template, i).1 && text == BuiltText(d, m, TokenAt(template, i).0)
  {
    var end := if template[i] == '{' then IndexFrom(template, i, '}') else -1;
    if end < 0 {
      return Ok([template[i]]), i + 1;
    }
    return FieldString(d, m, Name(template[i + 1..end])), end + 1;
  }

  /** BuildPath refuses every template with a nameless placeholder, unless a field has the empty name. */
  lemma NamelessNeverBuilds(d: Desc, m: Message, tokens: seq<Token>, token: Token)
    requires Find(d, "").None? && token in tokens && Nameless(token)
    ensures BuiltPath(d, m, tokens) == Err
  {
    NamelessIsEmpty(token);
    assert BuiltText(d, m, token).Err?;
  }

  /** Where the three scanners part: an empty placeholder is no field for pathFields, a nameless parameter for gin,
      and an error for BuildPath unless a field has the empty name. */
  lemma EmptyPlaceholderSplitsScanners(d: Desc, m: Message)
    requires Find(d, "").None?
    ensures FlatMap(FieldsOf, Tokens("{}")) == [] && FlatMap(GinText, Tokens("{}")) == ":"
    ensures BuiltPath(d, m, Tokens("{}")) == Err
  {
    IndexIs("{}", 0, '}', 1);
    assert "{}"[1..1] == "";
    assert TokensAt("{}", 2) == [];
    assert Tokens("{}") == [Hole("")];
    FlatFrom(FieldsOf, Hole(""), []);
    FlatFrom(GinText, Hole(""), []);
  }

  /** Path parameters as the router hands them over; Param gives the first with a name, or nothing. */
  type Params = seq<(string, string)>

  function Param(params: Params, name: string): string {
    if params == [] then "" else if params[0].0 == name then params[0].1 else Param(params[1..], name)
  }

  function BindFields(d: Desc, m: Message, params: Params, fields: seq<string>): Result<Message>
    decreases |fields|
  {
    if fields == [] then Ok(m) else
      var r := PopulateField(d, m, fields[0], Param(params, fields[0]));
      if r.Ok? then BindFields(d, r.value, params, fields[1..]) else Err
  }

  /** Binding succeeds if and only if each field takes its parameter; one that does not fails the whole. */
  lemma {:induction false} BindsIffEachDoes(d: Desc, m: Message, params: Params, fields: seq<string>)
    ensures BindFields(d, m, params, fields).Ok? <==> forall i | 0 <= i < |fields| :: PopulateField(d, EMPTY, fields[i], Param(params, fields[i])).Ok?
    decreases |fields|
  {
    if fields != [] {
      var rest, r := fields[1..], PopulateField(d, m, fields[0], Param(params, fields[0]));
      BindableAnywhere(d, m, EMPTY, fields[0], Param(params, fields[0]));
      if r.Ok? {
        BindsIffEachDoes(d, r.value, params, rest);
        assert forall i | 0 < i < |fields| :: fields[i] == rest[i - 1];
        assert forall i | 0 <= i < |rest| :: rest[i] == fields[i + 1];
      }
    }
  }

  /** BindPath: populates every named field from its parameter. */
  method BindPath(template: string, d: Desc, m: Message, params: Params) returns (r: Result<Message>)
    ensures r == BindFields(d, m, params, FlatMap(FieldsOf, Tokens(template)))
  {
    var fields := PathFields(template);
    var msg := m;
    for i := 0 to |fields|
      invariant BindFields(d, m, params, fields) == BindFields(d, msg, params, fields[i..])
    {
      assert fields[i..][1..] == fields[i + 1..];
      var x := PopulateField(d, msg, fields[i], Param(params, fields[i]));
      if x.Err? {
        return Err;
      }
      msg := x.value;
    }
    return Ok(msg);
  }

  // ---------------------------------------------------------------- routing by segment

  /** strings.Split by a slash, from position `i` on. */
  function Segments(s: string, i: nat): seq<string>
    requires i <= |s|
    decreases |s| - i
  {
    var slash := IndexFrom(s, i, '/');
    if slash < 0 then [s[i..]] else [s[i..slash]] + Segments(s, slash + 1)
  }

  /** A pattern segment ":name" captures any non-empty segment; every other one matches itself. */
  function MatchSegments(pattern: seq<string>, path: seq<string>): Option<Params> {
    if pattern == [] || path == [] then if pattern == path then Some([]) else None
    else
      var rest := MatchSegments(pattern[1..], path[1..]);
      if rest.None? then None
      else if pattern[0] != "" && pattern[0][0] == ':' then
        if path[0] != "" then Some([(pattern[0][1..], path[0])] + rest.value) else None
      else if pattern[0] == path[0] then rest
      else None
  }

  function Route(pattern: string, path: string): Option<Params> {
    MatchSegments(Segments(pattern, 0), Segments(path, 0))
  }

  // ---------------------------------------------------------------- templates of whole segments

  /** A segment is a word, or a placeholder that fills it. */
  datatype Segment = Word(text: string) | Slot(name: string)

  function SegmentText(seg: Segment): string {
    if seg.Word? then seg.text else "{" + seg.name + "}"
  }

  function Slashed(parts: seq<string>): string {
    if parts == [] then "" else "/" + parts[0] + Slashed(parts[1..])
  }

  function MapSegments(f: Segment -> string, segs: seq<Segment>): seq<string> {
    if segs == [] then [] else [f(segs[0])] + MapSegments(f, segs[1..])
  }

  function Template(segs: seq<Segment>): string {
    Slashed(MapSegments(SegmentText, segs))
  }

  predicate Free(s: string, c: char) {
    forall i | 0 <= i < |s| :: s[i] != c
  }

  /** Words without braces, slashes or gin's wildcards; names that are not empty and have no glob. */
  predicate Plain(seg: Segment) {
    match seg
    case Word(text) => Free(text, '{') && Free(text, '/') && Free(text, ':') && Free(text, '*')
    case Slot(name) => name != "" && Free(name, '}') && Free(name, '=') && Free(name, '/')
  }

  function SlotNames(segs: seq<Segment>): seq<string> {
    if segs == [] then [] else (if segs[0].Slot? then [segs[0].name] else []) + SlotNames(segs[1..])
  }

  // ---------------------------------------------------------------- how such a template scans

  function Lits(text: string): seq<Token> {
    if text == "" then [] else [Lit(text[0])] + Lits(text[1..])
  }

  function SegmentTokens(seg: Segment): seq<Token> {
    if seg.Word? then Lits(seg.text) else [Hole(seg.name)]
  }

  function TokensOf(segs: seq<Segment>): seq<Token> {
    if segs == [] then [] else [Lit('/')] + (SegmentTokens(segs[0]) + TokensOf(segs[1..]))
  }

  /** Scanning looks at what follows and at nothing else. */
  ghost predicate SameRest(s: string, i: nat, t: string, j: nat) {
    i <= |s| && j <= |t| && |s| - i == |t| - j && forall x | i <= x < |s| :: s[x] == t[x - i + j]
  }

  lemma {:induction false} IndexAgrees(s: string, i: nat, t: string, j: nat, c: char)
    requires SameRest(s, i, t, j)
    ensures IndexFrom(s, i, c) == (var r := IndexFrom(t, j, c); if r < 0 then -1 else r - j + i)
    decreases |s| - i
  {
    if i < |s| && s[i] != c {
      IndexAgrees(s, i + 1, t, j + 1, c);
    }
  }

  lemma RestAfter(s: string, i: nat, t: string, j: nat, n: nat)
    requires SameRest(s, i, t, j) && n <= |s| - i
    ensures SameRest(s, i + n, t, j + n) && s[i..i + n] == t[j..j + n] && (n > 0 ==> s[i] == t[j])
  {
    var u, v := s[i..i + n], t[j..j + n];
    assert forall x | 0 <= x < n :: u[x] == v[x];
  }

  lemma TokenAgrees(s: string, i: nat, t: string, j: nat)
    requires SameRest(s, i, t, j) && i < |s|
    ensures var (token, next) := TokenAt(t, j); j < next && TokenAt(s, i) == (token, next - j + i)
  {
    IndexAgrees(s, i, t, j, '}');
    RestAfter(s, i, t, j, 1);
    var end := ClosedAt(t, j);
    if end >= 0 {
      RestAfter(s, i + 1, t, j + 1, end - (j + 1));
    }
  }

  lemma {:induction false} TokensAgree(s: string, i: nat, t: string, j: nat)
    requires SameRest(s, i, t, j)
    ensures TokensAt(s, i) == TokensAt(t, j)
    decreases |s| - i
  {
    if i < |s| {
      TokenAgrees(s, i, t, j);
      var next := TokenAt(t, j).1;
      RestAfter(s, i, t, j, next - j);
      TokensAgree(s, next - j + i, t, next);
      TokensAtToken(s, i);
      TokensAtToken(t, j);
    }
  }

  lemma Suffix(a: string, b: string)
    ensures SameRest(a + b, |a|, b, 0)
  {
  }

  lemma {:induction false} WordScans(text: string, rest: string)
    requires Free(text, '{')
    ensures Tokens(text + rest) == Lits(text) + Tokens(rest)
  {
    if text == "" {
      assert text + rest == rest;
    } else {
      var s := text + rest;
      WordScans(text[1..], rest);
      assert s == text[..1] + (text[1..] + rest);
      Suffix(text[..1], text[1..] + rest);
      TokensAgree(s, 1, text[1..] + rest, 0);
      assert Tokens(s) == [Lit(text[0])] + TokensAt(s, 1);
    }
  }

  lemma SlotScans(name: string, rest: string)
    requires Free(name, '}')
    ensures Tokens("{" + name + "}" + rest) == [Hole(name)] + Tokens(rest)
  {
    var hole := "{" + name + "}";
    var s := hole + rest;
    assert s[|name| + 1] == '}' && forall j | 0 <= j < |name| + 1 :: s[j] != '}';
    IndexIs(s, 0, '}', |name| + 1);
    assert s[1..|name| + 1] == name;
    Suffix(hole, rest);
    TokensAgree(s, |hole|, rest, 0);
  }

  lemma SegmentScans(seg: Segment, rest: string)
    requires Plain(seg)
    ensures Tokens("/" + (SegmentText(seg) + rest)) == [Lit('/')] + (SegmentTokens(seg) + Tokens(rest))
  {
    WordScans("/", SegmentText(seg) + rest);
    assert Lits("/") == [Lit('/')];
    if seg.Word? {
      WordScans(seg.text, rest);
    } else {
      SlotScans(seg.name, rest);
    }
  }

  lemma TemplateFrom(segs: seq<Segment>)
    requires segs != []
    ensures Template(segs) == "/" + (SegmentText(segs[0]) + Template(segs[1..]))
  {
    assert MapSegments(SegmentText, segs)[1..] == MapSegments(SegmentText, segs[1..]);
  }

  lemma {:induction false} TemplateScans(segs: seq<Segment>)
    requires forall seg | seg in segs :: Plain(seg)
    ensures Tokens(Template(segs)) == TokensOf(segs)
  {
    if segs != [] {
      assert Plain(segs[0]);
      TemplateFrom(segs);
      SegmentScans(segs[0], Template(segs[1..]));
      TemplateScans(segs[1..]);
    }
  }

  // ---------------------------------------------------------------- what each scanner makes of it

  ghost predicate CopiesLiterals(g: Token -> string) {
    forall c :: g(Lit(c)) == [c]
  }

  lemma {:induction false} LitsCopied(g: Token -> string, text: string)
    requires CopiesLiterals(g)
    ensures FlatMap(g, Lits(text)) == text
  {
    if text != "" {
      LitsCopied(g, text[1..]);
      FlatFrom(g, Lit(text[0]), Lits(text[1..]));
    }
  }

  ghost predicate Renders(g: Token -> string, h: Segment -> string, seg: Segment) {
    h(seg) == if seg.Word? then seg.text else g(Hole(seg.name))
  }

  lemma SegmentRendered(g: Token -> string, h: Segment -> string, seg: Segment)
    requires CopiesLiterals(g) && Renders(g, h, seg)
    ensures FlatMap(g, SegmentTokens(seg)) == h(seg)
  {
    if seg.Word? {
      LitsCopied(g, seg.text);
    } else {
      FlatFrom(g, Hole(seg.name), []);
    }
  }

  lemma TokensRendered(g: Token -> string, head: seq<Token>, rest: seq<Token>)
    requires CopiesLiterals(g)
    ensures FlatMap(g, [Lit('/')] + (head + rest)) == "/" + FlatMap(g, head) + FlatMap(g, rest)
  {
    FlatAppend(g, head, rest);
    FlatFrom(g, Lit('/'), head + rest);
  }

  lemma SlashedFrom(f: Segment -> string, segs: seq<Segment>)
    requires segs != []
    ensures Slashed(MapSegments(f, segs)) == "/" + f(segs[0]) + Slashed(MapSegments(f, segs[1..]))
  {
    assert MapSegments(f, segs)[1..] == MapSegments(f, segs[1..]);
  }

  /** A scanner that copies literals turns the template into the slashed list of what it makes of the segments. */
  lemma {:induction false} ScansToSlashed(g: Token -> string, h: Segment -> string, segs: seq<Segment>)
    requires CopiesLiterals(g) && forall seg | seg in segs :: Renders(g, h, seg)
    ensures FlatMap(g, TokensOf(segs)) == Slashed(MapSegments(h, segs))
  {
    if segs != [] {
      assert segs[0] in segs;
      ScansToSlashed(g, h, segs[1..]);
      SegmentRendered(g, h, segs[0]);
      TokensRendered(g, SegmentTokens(segs[0]), TokensOf(segs[1..]));
      SlashedFrom(h, segs);
    }
  }

  lemma NameIsBody(name: string)
    requires Free(name, '=')
    ensures IndexFrom(name, 0, '=') < 0 && Name(name) == name
  {
    IndexIs(name, 0, '=', |name|);
  }

  lemma {:induction false} LitsHaveNoFields(text: string)
    ensures FlatMap(FieldsOf, Lits(text)) == []
  {
    if text != "" {
      LitsHaveNoFields(text[1..]);
      FlatFrom(FieldsOf, Lit(text[0]), Lits(text[1..]));
    }
  }

  lemma {:induction false} ScansToNames(segs: seq<Segment>)
    requires forall seg | seg in segs :: Plain(seg)
    ensures FlatMap(FieldsOf, TokensOf(segs)) == SlotNames(segs)
  {
    if segs != [] {
      var head, rest := SegmentTokens(segs[0]), TokensOf(segs[1..]);
      assert Plain(segs[0]);
      ScansToNames(segs[1..]);
      if segs[0].Word? {
        LitsHaveNoFields(segs[0].text);
      } else {
        NameIsBody(segs[0].name);
        FlatFrom(FieldsOf, Hole(segs[0].name), []);
      }
      FlatAppend(FieldsOf, head, rest);
      FlatFrom(FieldsOf, Lit('/'), head + rest);
    }
  }

  // ---------------------------------------------------------------- routing

  /** The segment at position `i`, and the position after its slash, if it has one. */
  function SegmentAt(s: string, i: nat): (r: (string, int))
    requires i <= |s|
    ensures r.1 == -1 || i < r.1 <= |s|
  {
    var slash := IndexFrom(s, i, '/');
    if slash < 0 then (s[i..], -1) else (s[i..slash], slash + 1)
  }

  lemma SegmentsAt(s: string, i: nat)
    requires i <= |s|
    ensures var (part, next) := SegmentAt(s, i); Segments(s, i) == if next < 0 then [part] else [part] + Segments(s, next)
  {
  }

  lemma {:induction false} SegmentsAgree(s: string, i: nat, t: string, j: nat)
    requires SameRest(s, i, t, j)
    ensures Segments(s, i) == Segments(t, j)
    decreases |s| - i
  {
    SegmentAgrees(s, i, t, j);
    SegmentsAt(s, i);
    SegmentsAt(t, j);
    var next, next' := SegmentAt(s, i).1, SegmentAt(t, j).1;
    if next >= 0 {
      SegmentsAgree(s, next, t, next');
    }
  }

  lemma SegmentAgrees(s: string, i: nat, t: string, j: nat)
    requires SameRest(s, i, t, j)
    ensures var (part, next), (part', next') := SegmentAt(s, i), SegmentAt(t, j);
            part == part' && (next < 0 <==> next' < 0) && (next >= 0 ==> SameRest(s, next, t, next'))
  {
    IndexAgrees(s, i, t, j, '/');
    var slash := IndexFrom(t, j, '/');
    RestAfter(s, i, t, j, if slash < 0 then |t| - j else slash - j);
    if slash >= 0 {
      RestAfter(s, i, t, j, slash + 1 - j);
    } else {
      assert s[i..] == s[i..|s|] && t[j..] == t[j..|t|];
    }
  }

  /** A part without slashes is the first segment of what it starts. */
  lemma PartIsSegment(p: string, b: string)
    requires Free(p, '/') && (b == "" || b[0] == '/')
    ensures SegmentAt(p + b, 0) == (p, if b == "" then -1 else |p| + 1)
  {
    var s := p + b;
    assert forall j | 0 <= j < |p| :: s[j] == p[j];
    IndexIs(s, 0, '/', |p|);
    assert s[0..|p|] == p;
    if b == "" {
      assert s[0..] == p;
    }
  }

  lemma PartThenRest(p: string, b: string)
    requires Free(p, '/') && (b == "" || b[0] == '/')
    ensures Segments(p + b, 0) == if b == "" then [p] else [p] + Segments(b, 1)
  {
    PartIsSegment(p, b);
    SegmentsAt(p + b, 0);
    Suffix(p, b);
    if b != "" {
      RestAfter(p + b, |p|, b, 0, 1);
      SegmentsAgree(p + b, |p| + 1, b, 1);
    }
  }

  lemma AfterSlash(x: string)
    ensures Segments("/" + x, 1) == Segments(x, 0)
  {
    Suffix("/", x);
    SegmentsAgree("/" + x, 1, x, 0);
  }

  lemma {:induction false} SlashedParts(parts: seq<string>)
    requires parts != []
    ensures Slashed(parts) == "/" + (parts[0] + Slashed(parts[1..]))
    ensures |parts| > 1 ==> Slashed(parts[1..]) != "" && Slashed(parts[1..])[0] == '/'
  {
  }

  lemma {:induction false} SplitSlashed(parts: seq<string>)
    requires parts != [] && forall part | part in parts :: Free(part, '/')
    ensures Segments(Slashed(parts), 1) == parts
  {
    var p, b := parts[0], Slashed(parts[1..]);
    assert Free(p, '/');
    SlashedParts(parts);
    AfterSlash(p + b);
    PartThenRest(p, b);
    if |parts| > 1 {
      SplitSlashed(parts[1..]);
    }
  }

  lemma {:induction false} SplitWhole(parts: seq<string>)
    requires forall part | part in parts :: Free(part, '/')
    ensures Segments(Slashed(parts), 0) == [""] + parts
  {
    var s := Slashed(parts);
    if parts != [] {
      SplitSlashed(parts);
      assert s[0] == '/' && s[0..0] == "";
    }
  }

  function Pattern(seg: Segment): string {
    if seg.Word? then seg.text else ":" + seg.name
  }

  /** The parameters that the segments' values make up. */
  function SlotParams(value: Segment -> string, segs: seq<Segment>): Params {
    if segs == [] then [] else (if segs[0].Slot? then [(segs[0].name, value(segs[0]))] else []) + SlotParams(value, segs[1..])
  }

  lemma MatchHead(p: string, ps: seq<string>, v: string, vs: seq<string>)
    ensures MatchSegments([p] + ps, [v] + vs) ==
            var rest := MatchSegments(ps, vs);
            if rest.None? then None
            else if p != "" && p[0] == ':' then if v != "" then Some([(p[1..], v)] + rest.value) else None
            else if p == v then rest
            else None
  {
    assert ([p] + ps)[1..] == ps && ([v] + vs)[1..] == vs;
  }

  lemma {:induction false} RoutesSegments(value: Segment -> string, segs: seq<Segment>)
    requires forall seg | seg in segs :: Plain(seg) && if seg.Word? then value(seg) == seg.text else value(seg) != ""
    ensures MatchSegments(MapSegments(Pattern, segs), MapSegments(value, segs)) == Some(SlotParams(value, segs))
  {
    if segs != [] {
      var seg := segs[0];
      assert seg in segs && Plain(seg);
      RoutesSegments(value, segs[1..]);
      MatchHead(Pattern(seg), MapSegments(Pattern, segs[1..]), value(seg), MapSegments(value, segs[1..]));
      if seg.Slot? {
        assert Pattern(seg)[1..] == seg.name;
      } else {
        assert Free(seg.text, ':');
        assert SlotParams(value, segs) == SlotParams(value, segs[1..]);
      }
    }
  }

  lemma {:induction false} MappedFree(f: Segment -> string, segs: seq<Segment>)
    requires forall seg | seg in segs :: Free(f(seg), '/')
    ensures forall part | part in MapSegments(f, segs) :: Free(part, '/')
  {
    if segs != [] {
      assert segs[0] in segs;
      MappedFree(f, segs[1..]);
    }
  }

  /** The path with the segments' values is routed, and each slot captures its value. */
  lemma RoutesTemplate(value: Segment -> string, segs: seq<Segment>)
    requires forall seg | seg in segs ::
               Plain(seg) && Free(value(seg), '/') && if seg.Word? then value(seg) == seg.text else value(seg) != ""
    ensures Route(Slashed(MapSegments(Pattern, segs)), Slashed(MapSegments(value, segs))) == Some(SlotParams(value, segs))
  {
    forall seg | seg in segs
      ensures Free(Pattern(seg), '/')
    {
      assert Plain(seg);
    }
    MappedFree(Pattern, segs);
    MappedFree(value, segs);
    SplitWhole(MapSegments(Pattern, segs));
    SplitWhole(MapSegments(value, segs));
    RoutesSegments(value, segs);
    MatchHead("", MapSegments(Pattern, segs), "", MapSegments(value, segs));
  }

  lemma ParamsHead(x: (string, string), params: Params, name: string)
    ensures Param([x] + params, name) == if x.0 == name then x.1 else Param(params, name)
  {
    assert ([x] + params)[1..] == params;
  }

  lemma {:induction false} SlotParamFound(value: Segment -> string, segs: seq<Segment>, name: string)
    requires name in SlotNames(segs)
    ensures Param(SlotParams(value, segs), name) == value(Slot(name))
  {
    if segs[0].Slot? {
      ParamsHead((segs[0].name, value(segs[0])), SlotParams(value, segs[1..]), name);
      assert segs[0] == Slot(segs[0].name);
    } else {
      assert SlotParams(value, segs) == SlotParams(value, segs[1..]);
    }
    if !(segs[0].Slot? && segs[0].name == name) {
      SlotParamFound(value, segs[1..], name);
    }
  }

  // ---------------------------------------------------------------- binding

  /** The name leads to a scalar field, not of kind bytes, that is set in the message to a value of its kind. */
  ghost predicate Carries(d: Desc, m: Message, name: string) {
    var t := Resolve(d, name);
    && t.Some? && !t.value.kind.BytesKind?
    && var v := Load(m, t.value.path);
       v.Some? && HasKind(t.value.kind, v.value) && (t.value.explicit || !Zero(v.value))
  }

  function PathOf(d: Desc, name: string): seq<string>
    requires Resolve(d, name).Some?
  {
    Resolve(d, name).value.path
  }

  ghost predicate LeadApart(d: Desc, names: seq<string>) {
    && (forall i | 0 <= i < |names| :: Resolve(d, names[i]).Some?)
    && (forall i, j | 0 <= i < j < |names| :: PathOf(d, names[i]) != PathOf(d, names[j]))
  }

  /** Binding the printed value of one field stores that value, and leaves the paths that lead elsewhere alone. */
  lemma BindsOne(d: Desc, m: Message, to: Message, name: string, value: string)
    requires Carries(d, m, name) && FieldString(d, m, name) == Ok(value)
    ensures PopulateField(d, to, name, value).Ok?
    ensures var to' := PopulateField(d, to, name, value).value;
            && Load(to', PathOf(d, name)) == Load(m, PathOf(d, name))
            && forall q | q != [] && Diverge(PathOf(d, name), q) :: Load(to', q) == Load(to, q)
  {
    var t := Resolve(d, name).value;
    var v := Load(m, t.path).value;
    FieldStringLoads(d, m, name, v);
    ScalarRoundTrip(t.kind, v);
    PopulateStores(d, to, name, value);
    LoadStored(to, t.path, t.explicit, v);
    forall q | q != [] && Diverge(t.path, q)
      ensures Load(Store(to, t.path, t.explicit, v), q) == Load(to, q)
    {
      StoreElsewhere(to, t.path, t.explicit, v, q);
    }
  }

  /** The names lead to set fields, and the parameters are those fields as the message prints them. */
  ghost predicate Printed(d: Desc, m: Message, params: Params, names: seq<string>) {
    forall i | 0 <= i < |names| :: Carries(d, m, names[i]) && FieldString(d, m, names[i]) == Ok(Param(params, names[i]))
  }

  lemma {:induction false} BindKeeps(d: Desc, m: Message, to: Message, params: Params, names: seq<string>, q: seq<string>)
    requires Printed(d, m, params, names) && q != []
    requires forall i | 0 <= i < |names| :: Diverge(PathOf(d, names[i]), q)
    ensures BindFields(d, to, params, names).Ok?
    ensures Load(BindFields(d, to, params, names).value, q) == Load(to, q)
    decreases |names|
  {
    if names != [] {
      BindsOne(d, m, to, names[0], Param(params, names[0]));
      BindKeeps(d, m, PopulateField(d, to, names[0], Param(params, names[0])).value, params, names[1..], q);
    }
  }

  lemma {:induction false} BindRestores(d: Desc, m: Message, to: Message, params: Params, names: seq<string>, i: nat)
    requires WellFormed(d) && LeadApart(d, names) && Printed(d, m, params, names) && i < |names|
    ensures BindFields(d, to, params, names).Ok?
    ensures Load(BindFields(d, to, params, names).value, PathOf(d, names[i])) == Load(m, PathOf(d, names[i]))
    decreases |names|
  {
    var rest := names[1..];
    BindsOne(d, m, to, names[0], Param(params, names[0]));
    var to' := PopulateField(d, to, names[0], Param(params, names[0])).value;
    if i > 0 {
      BindRestores(d, m, to', params, rest, i - 1);
    } else {
      forall j | 0 <= j < |rest|
        ensures Diverge(PathOf(d, rest[j]), PathOf(d, names[0]))
      {
        assert PathOf(d, names[0]) != PathOf(d, names[j + 1]);
        ScalarPathsDiverge(d, rest[j], names[0]);
      }
      BindKeeps(d, m, to', params, rest, PathOf(d, names[0]));
    }
  }

  lemma BindRestoresAll(d: Desc, m: Message, to: Message, params: Params, names: seq<string>)
    requires WellFormed(d) && LeadApart(d, names) && Printed(d, m, params, names)
    ensures BindFields(d, to, params, names).Ok?
    ensures forall name | name in names :: Load(BindFields(d, to, params, names).value, PathOf(d, name)) == Load(m, PathOf(d, name))
  {
    if names != [] {
      BindRestores(d, m, to, params, names, 0);
      forall i | 0 <= i < |names|
        ensures Load(BindFields(d, to, params, names).value, PathOf(d, names[i])) == Load(m, PathOf(d, names[i]))
      {
        BindRestores(d, m, to, params, names, i);
      }
    }
  }

  // ---------------------------------------------------------------- the round trip

  function ValueText(d: Desc, m: Message): Segment -> string {
    (seg: Segment) => if seg.Word? then seg.text else TextOf(BuiltText(d, m, Hole(seg.name)))
  }

  /** The value prints as one non-empty path segment. */
  ghost predicate FitsSegment(d: Desc, m: Message, name: string) {
    var r := FieldString(d, m, name);
    r.Ok? && r.value != "" && Free(r.value, '/')
  }

  lemma {:induction false} NamesOfSlots(segs: seq<Segment>, name: string)
    ensures name in SlotNames(segs) <==> Slot(name) in segs
  {
    if segs != [] {
      NamesOfSlots(segs[1..], name);
    }
  }

  lemma {:induction false} TokenOfSegments(segs: seq<Segment>, token: Token)
    requires token in TokensOf(segs) && token.Hole?
    ensures Slot(token.body) in segs
  {
    if token in SegmentTokens(segs[0]) {
      if segs[0].Word? {
        LitsAreLits(segs[0].text, token);
      }
    } else {
      TokenOfSegments(segs[1..], token);
    }
  }

  lemma {:induction false} LitsAreLits(text: string, token: Token)
    requires token in Lits(text)
    ensures token.Lit?
  {
    if token != Lit(text[0]) {
      LitsAreLits(text[1..], token);
    }
  }

  /** The built path is the slashed list of words and values. */
  lemma BuildsValues(segs: seq<Segment>, d: Desc, m: Message)
    requires forall seg | seg in segs :: Plain(seg)
    requires forall name | name in SlotNames(segs) :: FitsSegment(d, m, name)
    ensures BuiltPath(d, m, Tokens(Template(segs))) == Ok(Slashed(MapSegments(ValueText(d, m), segs)))
  {
    TemplateScans(segs);
    var tokens := TokensOf(segs);
    forall i | 0 <= i < |tokens|
      ensures BuiltText(d, m, tokens[i]).Ok?
    {
      if tokens[i].Hole? {
        TokenOfSegments(segs, tokens[i]);
        NamesOfSlots(segs, tokens[i].body);
        assert Plain(Slot(tokens[i].body));
        NameIsBody(tokens[i].body);
      }
    }
    ScansToSlashed(Written(d, m), ValueText(d, m), segs);
  }

  lemma SlotValue(segs: seq<Segment>, d: Desc, m: Message, seg: Segment)
    requires seg in segs && Plain(seg) && forall name | name in SlotNames(segs) :: FitsSegment(d, m, name)
    ensures Free(ValueText(d, m)(seg), '/')
    ensures seg.Slot? ==> ValueText(d, m)(seg) != "" && FieldString(d, m, seg.name) == Ok(ValueText(d, m)(seg))
  {
    if seg.Slot? {
      assert seg == Slot(seg.name);
      NamesOfSlots(segs, seg.name);
      NameIsBody(seg.name);
      assert FitsSegment(d, m, seg.name);
      assert BuiltText(d, m, Hole(seg.name)) == FieldString(d, m, seg.name);
      assert ValueText(d, m)(seg) == FieldString(d, m, seg.name).value;
    }
  }

  /** Building a path from a message, routing it by segment and binding it into any message restores every
      field the template names. */
  lemma PathRoundTrips(segs: seq<Segment>, d: Desc, m: Message, to: Message)
    requires WellFormed(d) && forall seg | seg in segs :: Plain(seg)
    requires LeadApart(d, SlotNames(segs))
    requires forall name | name in SlotNames(segs) :: Carries(d, m, name) && FitsSegment(d, m, name)
    ensures var tokens := Tokens(Template(segs));
            var path := BuiltPath(d, m, tokens);
            && path.Ok?
            && var params := Route(FlatMap(GinText, tokens), path.value);
            && params.Some?
            && var r := BindFields(d, to, params.value, FlatMap(FieldsOf, tokens));
            && r.Ok?
            && forall name | name in SlotNames(segs) :: Load(r.value, PathOf(d, name)) == Load(m, PathOf(d, name))
  {
    var value := ValueText(d, m);
    TemplateScans(segs);
    BuildsValues(segs, d, m);
    forall seg | seg in segs
      ensures Free(value(seg), '/') && (seg.Slot? ==> value(seg) != "" && FieldString(d, m, seg.name) == Ok(value(seg)))
      ensures Renders(GinText, Pattern, seg)
    {
      assert Plain(seg);
      SlotValue(segs, d, m, seg);
      if seg.Slot? {
        NameIsBody(seg.name);
      }
    }
    ScansToSlashed(GinText, Pattern, segs);
    RoutesTemplate(value, segs);
    ScansToNames(segs);
    var names, params := SlotNames(segs), SlotParams(value, segs);
    forall name | name in names
      ensures FieldString(d, m, name) == Ok(Param(params, name))
    {
      NamesOfSlots(segs, name);
      SlotParamFound(value, segs, name);
      assert Slot(name) in segs;
    }
    BindRestoresAll(d, m, to, params, names);
  }
}
