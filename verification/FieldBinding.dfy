/** Reading and setting message fields named by dotted paths. */
module FieldBinding {
  import opened PathTemplates
  import opened Scalars
  import opened Wrappers

  /** A scalar field either tracks its presence explicitly, or counts as unset while it holds its zero value. */
  datatype Type = ScalarType(kind: Kind, explicit: bool) | MessageType(desc: Desc)

  datatype Field = Field(name: string, jsonName: string, ty: Type)

  datatype Desc = Desc(fields: seq<Field>)

  datatype Value = Leaf(v: Scalar) | Sub(m: Message)

  /** A message holds the fields that are set, by field name. */
  datatype Message = Message(vals: map<string, Value>)

  const EMPTY := Message(map[])

  // ---------------------------------------------------------------- descriptors

  function ByName(fields: seq<Field>, name: string): Option<Field> {
    if fields == [] then None else if fields[0].name == name then Some(fields[0]) else ByName(fields[1..], name)
  }

  function ByJsonName(fields: seq<Field>, name: string): Option<Field> {
    if fields == [] then None else if fields[0].jsonName == name then Some(fields[0]) else ByJsonName(fields[1..], name)
  }

  function Find(d: Desc, name: string): Option<Field> {
    var f := ByName(d.fields, name);
    if f.Some? then f else ByJsonName(d.fields, name)
  }

  /** Field names are unique within a message. */
  ghost predicate Distinct(d: Desc) {
    forall i, j | 0 <= i < j < |d.fields| :: d.fields[i].name != d.fields[j].name
  }

  /** The first part of a dotted name, and the rest if there is one. */
  function Head(name: string): string {
    var dot := IndexFrom(name, 0, '.');
    if dot < 0 then name else name[..dot]
  }

  function Tail(name: string): (r: Option<string>)
    ensures r.Some? ==> |r.value| < |name|
  {
    var dot := IndexFrom(name, 0, '.');
    if dot < 0 then None else Some(name[dot + 1..])
  }

  // ---------------------------------------------------------------- fieldString and populateField

  function SubMessage(m: Message, name: string): Message {
    if name in m.vals && m.vals[name].Sub? then m.vals[name].m else EMPTY
  }

  function FieldString(d: Desc, m: Message, name: string): Result<string>
    decreases |name|
  {
    match Find(d, Head(name))
    case None => Err
    case Some(f) =>
      match (Tail(name), f.ty)
      case (Some(rest), ScalarType(_, _)) => Err
      case (Some(rest), MessageType(desc)) => FieldString(desc, SubMessage(m, f.name), rest)
      case (None, MessageType(_)) => if f.name !in m.vals then Ok("") else Err
      case (None, ScalarType(kind, _)) =>
        if f.name !in m.vals then Ok("")
        else if m.vals[f.name].Leaf? && HasKind(kind, m.vals[f.name].v) then Ok(ScalarString(kind, m.vals[f.name].v))
        else Err
  }

  function Zero(v: Scalar): bool {
    match v
    case Str(s) => s == ""
    case Bytes(b) => b == ""
    case Bool(x) => !x
    case Num(n) => n == 0
    case Enum(n) => n == 0
  }

  /** Setting a field without explicit presence to its zero value unsets it. */
  function SetScalar(m: Message, name: string, explicit: bool, v: Scalar): Message {
    if explicit || !Zero(v) then Message(m.vals[name := Leaf(v)]) else Message(m.vals - {name})
  }

  /** An unknown field is ignored; a message on the way is created. */
  function PopulateField(d: Desc, m: Message, name: string, value: string): Result<Message>
    decreases |name|
  {
    match Find(d, Head(name))
    case None => Ok(m)
    case Some(f) =>
      match (Tail(name), f.ty)
      case (Some(rest), ScalarType(_, _)) => Err
      case (Some(rest), MessageType(desc)) =>
        var sub := PopulateField(desc, SubMessage(m, f.name), rest, value);
        if sub.Ok? then Ok(Message(m.vals[f.name := Sub(sub.value)])) else Err
      case (None, MessageType(_)) => Err
      case (None, ScalarType(kind, explicit)) =>
        var v := ParseScalar(kind, value);
        if v.Ok? then Ok(SetScalar(m, f.name, explicit, v.value)) else Err
  }

  // ---------------------------------------------------------------- resolved paths

  /** The scalar field a dotted name leads to, with the field names on the way. */
  datatype Target = Target(path: seq<string>, kind: Kind, explicit: bool)

  function Resolve(d: Desc, name: string): (r: Option<Target>)
    ensures r.Some? ==> r.value.path != []
    decreases |name|
  {
    match Find(d, Head(name))
    case None => None
    case Some(f) =>
      match (Tail(name), f.ty)
      case (Some(rest), MessageType(desc)) =>
        var t := Resolve(desc, rest);
        if t.Some? then Some(t.value.(path := [f.name] + t.value.path)) else None
      case (None, ScalarType(kind, explicit)) => Some(Target([f.name], kind, explicit))
      case _ => None
  }

  /** The scalar stored under a path, if any. */
  function Load(m: Message, path: seq<string>): Option<Scalar>
    requires path != []
    decreases |path|
  {
    if |path| > 1 then Load(SubMessage(m, path[0]), path[1..])
    else if path[0] in m.vals && m.vals[path[0]].Leaf? then Some(m.vals[path[0]].v) else None
  }

  /** The message with a scalar stored under a path. */
  function Store(m: Message, path: seq<string>, explicit: bool, v: Scalar): Message
    requires path != []
    decreases |path|
  {
    if |path| > 1 then Message(m.vals[path[0] := Sub(Store(SubMessage(m, path[0]), path[1..], explicit, v))])
    else SetScalar(m, path[0], explicit, v)
  }

  lemma {:induction false} FieldStringLoads(d: Desc, m: Message, name: string, v: Scalar)
    requires Resolve(d, name).Some? && Load(m, Resolve(d, name).value.path) == Some(v) && HasKind(Resolve(d, name).value.kind, v)
    ensures FieldString(d, m, name) == Ok(ScalarString(Resolve(d, name).value.kind, v))
    decreases |name|
  {
    var f := Find(d, Head(name)).value;
    if Tail(name).Some? {
      assert Resolve(d, name).value.path[1..] == Resolve(f.ty.desc, Tail(name).value).value.path;
      FieldStringLoads(f.ty.desc, SubMessage(m, f.name), Tail(name).value, v);
    }
  }

  /** A dotted name is split at its first dot: what stands before it names a message field, and the rest is looked up in
      there; a name without a dot is a scalar field's. */
  lemma DottedNamesDescend(d: Desc, first: string, rest: string)
    requires '.' !in first
    ensures var f := Find(d, first);
            && Resolve(d, first) == (if f.Some? && f.value.ty.ScalarType? then Some(Target([f.value.name], f.value.ty.kind, f.value.ty.explicit)) else None)
            && Resolve(d, first + "." + rest) ==
               if f.Some? && f.value.ty.MessageType? && Resolve(f.value.ty.desc, rest).Some?
               then var t := Resolve(f.value.ty.desc, rest).value; Some(Target([f.value.name] + t.path, t.kind, t.explicit))
               else None
  {
    var whole := first + "." + rest;
    IndexIs(first, 0, '.', |first|);
    assert forall j | 0 <= j < |first| :: whole[j] == first[j];
    IndexIs(whole, 0, '.', |first|);
    assert whole[..|first|] == first && whole[|first| + 1..] == rest;
  }

  /** Nothing is set under the path. */
  ghost predicate Unset(m: Message, path: seq<string>)
    requires path != []
    decreases |path|
  {
    if |path| > 1 then Unset(SubMessage(m, path[0]), path[1..]) else path[0] !in m.vals
  }

  /** An unset scalar field is printed as the empty string. */
  lemma {:induction false} UnsetPrintsEmpty(d: Desc, m: Message, name: string)
    requires Resolve(d, name).Some? && Unset(m, Resolve(d, name).value.path)
    ensures FieldString(d, m, name) == Ok("")
    decreases |name|
  {
    var f := Find(d, Head(name)).value;
    if Tail(name).Some? {
      assert Resolve(d, name).value.path[1..] == Resolve(f.ty.desc, Tail(name).value).value.path;
      UnsetPrintsEmpty(f.ty.desc, SubMessage(m, f.name), Tail(name).value);
    }
  }

  /** An unknown field is an error when printing and is ignored when binding. */
  lemma UnknownField(d: Desc, m: Message, name: string, value: string)
    requires forall f | f in d.fields :: f.name != Head(name) && f.jsonName != Head(name)
    ensures FieldString(d, m, name) == Err && PopulateField(d, m, name, value) == Ok(m)
  {
    var _ := FindIsExact(d, Head(name));
  }

  lemma {:induction false} PopulateStores(d: Desc, m: Message, name: string, value: string)
    requires Resolve(d, name).Some?
    ensures var t := Resolve(d, name).value;
            var v := ParseScalar(t.kind, value);
            PopulateField(d, m, name, value) == if v.Ok? then Ok(Store(m, t.path, t.explicit, v.value)) else Err
    decreases |name|
  {
    var f := Find(d, Head(name)).value;
    if Tail(name).Some? {
      assert Resolve(d, name).value.path[1..] == Resolve(f.ty.desc, Tail(name).value).value.path;
      PopulateStores(f.ty.desc, SubMessage(m, f.name), Tail(name).value, value);
    }
  }

  /** Whether a value can be bound depends on the descriptor and the text, not on the message. */
  lemma {:induction false} BindableAnywhere(d: Desc, m: Message, m': Message, name: string, value: string)
    ensures PopulateField(d, m, name, value).Ok? <==> PopulateField(d, m', name, value).Ok?
    decreases |name|
  {
    var f := Find(d, Head(name));
    if f.Some? && f.value.ty.MessageType? && Tail(name).Some? {
      BindableAnywhere(f.value.ty.desc, SubMessage(m, f.value.name), SubMessage(m', f.value.name), Tail(name).value, value);
    }
  }

  /** What is stored under a path is there; a zero value without explicit presence counts as unset. */
  lemma {:induction false} LoadStored(m: Message, path: seq<string>, explicit: bool, v: Scalar)
    requires path != []
    ensures Load(Store(m, path, explicit, v), path) == if explicit || !Zero(v) then Some(v) else None
    decreases |path|
  {
    if |path| > 1 {
      LoadStored(SubMessage(m, path[0]), path[1..], explicit, v);
    }
  }

  ghost predicate Diverge(p: seq<string>, q: seq<string>) {
    exists i :: 0 <= i < |p| && i < |q| && p[i] != q[i]
  }

  /** Storing under one path leaves every path that leads elsewhere alone. */
  lemma {:induction false} StoreElsewhere(m: Message, p: seq<string>, explicit: bool, v: Scalar, q: seq<string>)
    requires p != [] && q != [] && Diverge(p, q)
    ensures Load(Store(m, p, explicit, v), q) == Load(m, q)
    decreases |p|
  {
    if p[0] == q[0] {
      var i :| 0 <= i < |p| && i < |q| && p[i] != q[i];
      assert p[1..][i - 1] != q[1..][i - 1];
      StoreElsewhere(SubMessage(m, p[0]), p[1..], explicit, v, q[1..]);
    }
  }

  /** All messages below have unique field names. */
  ghost predicate WellFormed(d: Desc)
    decreases d
  {
    Distinct(d) && forall f | f in d.fields && f.ty.MessageType? :: WellFormed(f.ty.desc)
  }

  lemma {:induction false} FoundIsListed(fields: seq<Field>, name: string)
    ensures ByName(fields, name).Some? ==> ByName(fields, name).value in fields
    ensures ByJsonName(fields, name).Some? ==> ByJsonName(fields, name).value in fields
  {
    if fields != [] {
      FoundIsListed(fields[1..], name);
    }
  }

  function Named(name: string): Field -> bool {
    (f: Field) => f.name == name
  }

  function JsonNamed(name: string): Field -> bool {
    (f: Field) => f.jsonName == name
  }

  /** Field `i` is the first with the property. */
  ghost predicate FirstAt(fields: seq<Field>, i: nat, has: Field -> bool) {
    i < |fields| && has(fields[i]) && forall j | 0 <= j < i :: !has(fields[j])
  }

  lemma FirstLater(fields: seq<Field>, i: nat, has: Field -> bool)
    requires fields != [] && !has(fields[0]) && FirstAt(fields[1..], i, has)
    ensures FirstAt(fields, i + 1, has)
  {
    assert forall j | 0 <= j < |fields| - 1 :: fields[1..][j] == fields[j + 1];
  }

  lemma {:induction false} FirstByName(fields: seq<Field>, name: string) returns (i: nat)
    ensures if ByName(fields, name).None? then forall f | f in fields :: f.name != name
            else FirstAt(fields, i, Named(name)) && fields[i] == ByName(fields, name).value
  {
    i := 0;
    if fields != [] && fields[0].name != name {
      i := FirstByName(fields[1..], name);
      if ByName(fields, name).Some? {
        FirstLater(fields, i, Named(name));
        i := i + 1;
      }
    }
  }

  lemma {:induction false} FirstByJsonName(fields: seq<Field>, name: string) returns (i: nat)
    ensures if ByJsonName(fields, name).None? then forall f | f in fields :: f.jsonName != name
            else FirstAt(fields, i, JsonNamed(name)) && fields[i] == ByJsonName(fields, name).value
  {
    i := 0;
    if fields != [] && fields[0].jsonName != name {
      i := FirstByJsonName(fields[1..], name);
      if ByJsonName(fields, name).Some? {
        FirstLater(fields, i, JsonNamed(name));
        i := i + 1;
      }
    }
  }

  /** A name finds the first field so named; if there is none, the first whose JSON name it is; and else nothing. */
  lemma FindIsExact(d: Desc, name: string) returns (i: nat)
    ensures if forall f | f in d.fields :: f.name != name && f.jsonName != name then Find(d, name) == None
            else
              && i < |d.fields| && Find(d, name) == Some(d.fields[i])
              && if exists f :: f in d.fields && f.name == name
                 then d.fields[i].name == name && forall j | 0 <= j < i :: d.fields[j].name != name
                 else d.fields[i].jsonName == name && forall j | 0 <= j < i :: d.fields[j].jsonName != name
  {
    var a := FirstByName(d.fields, name);
    var b := FirstByJsonName(d.fields, name);
    i := if ByName(d.fields, name).Some? then a else b;
    if ByName(d.fields, name).Some? {
      assert d.fields[a] in d.fields;
    } else if ByJsonName(d.fields, name).Some? {
      assert d.fields[b] in d.fields;
    }
  }

  lemma SameNameSameField(d: Desc, a: string, b: string)
    requires Distinct(d) && Find(d, a).Some? && Find(d, b).Some? && Find(d, a).value.name == Find(d, b).value.name
    ensures Find(d, a) == Find(d, b) && Find(d, a).value in d.fields
  {
    FoundIsListed(d.fields, a);
    FoundIsListed(d.fields, b);
  }

  lemma DivergeBelow(x: string, p: seq<string>, q: seq<string>)
    requires Diverge(p, q)
    ensures Diverge([x] + p, [x] + q)
  {
    var i :| 0 <= i < |p| && i < |q| && p[i] != q[i];
    assert ([x] + p)[i + 1] != ([x] + q)[i + 1];
  }

  /** Two names of scalar fields lead to the same field or to paths that part somewhere. */
  lemma {:induction false} ScalarPathsDiverge(d: Desc, a: string, b: string)
    requires WellFormed(d) && Resolve(d, a).Some? && Resolve(d, b).Some?
    requires Resolve(d, a).value.path != Resolve(d, b).value.path
    ensures Diverge(Resolve(d, a).value.path, Resolve(d, b).value.path)
    decreases |a|
  {
    var p, q := Resolve(d, a).value.path, Resolve(d, b).value.path;
    var f, g := Find(d, Head(a)).value, Find(d, Head(b)).value;
    if f.name == g.name {
      SameNameSameField(d, Head(a), Head(b));
      var p', q' := Resolve(f.ty.desc, Tail(a).value).value.path, Resolve(f.ty.desc, Tail(b).value).value.path;
      ScalarPathsDiverge(f.ty.desc, Tail(a).value, Tail(b).value);
      DivergeBelow(f.name, p', q');
    } else {
      assert p[0] != q[0];
    }
  }
}
