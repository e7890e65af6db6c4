/**
  The names a destructuring pattern binds (src/utils/resolve-pattern.ts).
*/
module ResolvePattern {
  import opened Wrappers
  import opened Syntax
  import opened Errors

  /** The node type the source reports for a pattern it cannot resolve. */
  function PatternTypeName(p: Pattern): string {
    match p
    case Ident(_) => "Identifier"
    case ArrayPat(_) => "ArrayPattern"
    case ObjectPat(_) => "ObjectPattern"
    case AssignPat(_, _) => "AssignmentPattern"
    case RestPat(_) => "RestElement"
    case ExprPat(_) => "Expression"
    case InvalidPat => "Invalid"
  }

  /**
    A `flatMap` whose callbacks may throw: the first error met left to right,
    or else the concatenation of all the lists.
  */
  function FlatMap(results: seq<Result<seq<string>, Error>>): (r: Result<seq<string>, Error>)
    ensures r.Success? <==> forall i :: 0 <= i < |results| ==> results[i].Success?
  {
    if results == [] then Success([])
    else
      var head :- results[0];
      var tail :- FlatMap(results[1..]);
      Success(head + tail)
  }

  /** `resolvePattern(pattern)`: the bound names, left to right, or the error raised. */
  function Resolve(p: Pattern): (r: Result<seq<string>, Error>)
  {
    match p
    case Ident(name) => Success([name])
    case ObjectPat(properties) =>
      FlatMap(seq(|properties|, i requires 0 <= i < |properties| => ResolveProperty(properties[i])))
    case ArrayPat(elements) =>
      FlatMap(seq(|elements|, i requires 0 <= i < |elements| => ResolveElement(elements[i])))
    case AssignPat(left, _) => Resolve(left)
    case _ => Failure(UnexpectedNode("pattern in variable declaration", PatternTypeName(p)))
  }

  /** One object-pattern property: its key when it is `key` or `key = default`, else its pattern's names. */
  function ResolveProperty(prop: ObjectProperty): (r: Result<seq<string>, Error>)
  {
    match prop
    case AssignProp(name, _) => Success([name])
    case RestProp(argument) => Resolve(argument)
    case KeyValueProp(_, value) => Resolve(value)
  }

  /** One array-pattern slot: a rest element yields its argument's names, a hole fails. */
  function ResolveElement(element: ArrayElement): (r: Result<seq<string>, Error>)
  {
    match element
    case Hole => Failure(HoleTypeError)
    case Element(RestPat(argument)) => Resolve(argument)
    case Element(q) => Resolve(q)
  }

  // ---------------------------------------------------------------------------
  // Reference definitions: which patterns resolve, and which names they bind
  // ---------------------------------------------------------------------------

  /**
    The source resolves the pattern without raising: no array hole anywhere,
    and no rest element, expression or invalid pattern outside the places
    where a rest element is expected.
  */
  ghost predicate Supported(p: Pattern) {
    match p
    case Ident(_) => true
    case ObjectPat(properties) => forall i :: 0 <= i < |properties| ==> PropertySupported(properties[i])
    case ArrayPat(elements) => forall i :: 0 <= i < |elements| ==> ElementSupported(elements[i])
    case AssignPat(left, _) => Supported(left)
    case _ => false
  }

  ghost predicate PropertySupported(prop: ObjectProperty) {
    match prop
    case AssignProp(_, _) => true
    case RestProp(argument) => Supported(argument)
    case KeyValueProp(_, value) => Supported(value)
  }

  ghost predicate ElementSupported(element: ArrayElement) {
    match element
    case Hole => false
    case Element(RestPat(argument)) => Supported(argument)
    case Element(q) => Supported(q)
  }

  /**
    `p` binds `x`: an identifier binds itself; a shorthand property binds its
    key; a key-value property binds what its value pattern binds, never the
    key; rest elements and defaulted patterns bind what their target binds.
  */
  ghost predicate Binds(p: Pattern, x: string) {
    match p
    case Ident(name) => x == name
    case ObjectPat(properties) => exists i :: 0 <= i < |properties| && PropertyBinds(properties[i], x)
    case ArrayPat(elements) => exists i :: 0 <= i < |elements| && ElementBinds(elements[i], x)
    case AssignPat(left, _) => Binds(left, x)
    case RestPat(argument) => Binds(argument, x)
    case _ => false
  }

  ghost predicate PropertyBinds(prop: ObjectProperty, x: string) {
    match prop
    case AssignProp(name, _) => x == name
    case RestProp(argument) => Binds(argument, x)
    case KeyValueProp(_, value) => Binds(value, x)
  }

  ghost predicate ElementBinds(element: ArrayElement, x: string) {
    match element
    case Hole => false
    case Element(q) => Binds(q, x)
  }

  // ---------------------------------------------------------------------------
  // Lemmas
  // ---------------------------------------------------------------------------

  lemma {:induction false} FlatMapNames(results: seq<Result<seq<string>, Error>>, x: string)
    requires FlatMap(results).Success?
    ensures x in FlatMap(results).value <==> exists i :: 0 <= i < |results| && x in results[i].value
  {
    if results != [] {
      FlatMapNames(results[1..], x);
      if exists i :: 0 <= i < |results| && x in results[i].value {
        var i :| 0 <= i < |results| && x in results[i].value;
        if i > 0 {
          assert results[1..][i - 1] == results[i];
        }
      }
      if exists i :: 0 <= i < |results| - 1 && x in results[1..][i].value {
        var i :| 0 <= i < |results| - 1 && x in results[1..][i].value;
        assert results[i + 1] == results[1..][i];
      }
    }
  }

  lemma {:induction false} FlatMapOrder(a: seq<Result<seq<string>, Error>>, b: seq<Result<seq<string>, Error>>)
    requires FlatMap(a).Success? && FlatMap(b).Success?
    ensures FlatMap(a + b) == Success(FlatMap(a).value + FlatMap(b).value)
  {
    if a == [] {
      assert a + b == b;
      assert FlatMap(a).value == [];
      assert FlatMap(a).value + FlatMap(b).value == FlatMap(b).value;
    } else {
      assert (a + b)[0] == a[0];
      assert (a + b)[1..] == a[1..] + b;
      FlatMapOrder(a[1..], b);
      assert FlatMap(a) == Success(a[0].value + FlatMap(a[1..]).value);
      assert FlatMap(a + b) == Success(a[0].value + FlatMap(a[1..] + b).value);
      assert a[0].value + (FlatMap(a[1..]).value + FlatMap(b).value)
          == (a[0].value + FlatMap(a[1..]).value) + FlatMap(b).value;
    }
  }

  /** The source raises exactly on the unsupported patterns. */
  lemma {:induction false} ResolveSucceedsIff(p: Pattern)
    ensures Resolve(p).Success? <==> Supported(p)
  {
    match p
    case ObjectPat(properties) =>
      var rs := seq(|properties|, i requires 0 <= i < |properties| => ResolveProperty(properties[i]));
      forall i | 0 <= i < |properties| ensures rs[i].Success? <==> PropertySupported(properties[i]) {
        PropertySucceedsIff(properties[i]);
      }
    case ArrayPat(elements) =>
      var rs := seq(|elements|, i requires 0 <= i < |elements| => ResolveElement(elements[i]));
      forall i | 0 <= i < |elements| ensures rs[i].Success? <==> ElementSupported(elements[i]) {
        ElementSucceedsIff(elements[i]);
      }
    case AssignPat(left, _) => ResolveSucceedsIff(left);
    case _ =>
  }

  lemma {:induction false} PropertySucceedsIff(prop: ObjectProperty)
    ensures ResolveProperty(prop).Success? <==> PropertySupported(prop)
  {
    match prop
    case AssignProp(_, _) =>
    case RestProp(argument) => ResolveSucceedsIff(argument);
    case KeyValueProp(_, value) => ResolveSucceedsIff(value);
  }

  lemma {:induction false} ElementSucceedsIff(element: ArrayElement)
    ensures ResolveElement(element).Success? <==> ElementSupported(element)
  {
    match element
    case Hole =>
    case Element(RestPat(argument)) => ResolveSucceedsIff(argument);
    case Element(q) => ResolveSucceedsIff(q);
  }

  /** A resolved pattern lists exactly the names it binds. */
  lemma {:induction false} ResolveBindsExactly(p: Pattern, x: string)
    requires Resolve(p).Success?
    ensures x in Resolve(p).value <==> Binds(p, x)
  {
    match p
    case Ident(_) =>
    case ObjectPat(properties) =>
      var rs := seq(|properties|, i requires 0 <= i < |properties| => ResolveProperty(properties[i]));
      FlatMapNames(rs, x);
      forall i | 0 <= i < |properties| ensures x in rs[i].value <==> PropertyBinds(properties[i], x) {
        PropertyBindsExactly(properties[i], x);
      }
    case ArrayPat(elements) =>
      var rs := seq(|elements|, i requires 0 <= i < |elements| => ResolveElement(elements[i]));
      FlatMapNames(rs, x);
      forall i | 0 <= i < |elements| ensures x in rs[i].value <==> ElementBinds(elements[i], x) {
        ElementBindsExactly(elements[i], x);
      }
    case AssignPat(left, _) => ResolveBindsExactly(left, x);
  }

  lemma {:induction false} PropertyBindsExactly(prop: ObjectProperty, x: string)
    requires ResolveProperty(prop).Success?
    ensures x in ResolveProperty(prop).value <==> PropertyBinds(prop, x)
  {
    match prop
    case AssignProp(_, _) =>
    case RestProp(argument) => ResolveBindsExactly(argument, x);
    case KeyValueProp(_, value) => ResolveBindsExactly(value, x);
  }

  lemma {:induction false} ElementBindsExactly(element: ArrayElement, x: string)
    requires ResolveElement(element).Success?
    ensures x in ResolveElement(element).value <==> ElementBinds(element, x)
  {
    match element
    case Element(RestPat(argument)) => ResolveBindsExactly(argument, x);
    case Element(q) => ResolveBindsExactly(q, x);
  }

  /** An array pattern lists its elements' names left to right: splitting it splits the list. */
  lemma ArrayNamesInOrder(a: seq<ArrayElement>, b: seq<ArrayElement>)
    requires Resolve(ArrayPat(a)).Success? && Resolve(ArrayPat(b)).Success?
    ensures Resolve(ArrayPat(a + b)) == Success(Resolve(ArrayPat(a)).value + Resolve(ArrayPat(b)).value)
  {
    var ra := seq(|a|, i requires 0 <= i < |a| => ResolveElement(a[i]));
    var rb := seq(|b|, i requires 0 <= i < |b| => ResolveElement(b[i]));
    var ab := a + b;
    assert seq(|ab|, i requires 0 <= i < |ab| => ResolveElement(ab[i])) == ra + rb;
    FlatMapOrder(ra, rb);
  }

  /**
    `{ x, _0: { _1: { y, z } } = d, ...w }` binds x, y, z and w in that order;
    the keys `_0` and `_1` and the default `d` contribute nothing.
  */
  lemma NestedObjectExample(d: Node)
    ensures Resolve(ObjectPat([
              AssignProp("x", None),
              KeyValueProp(IdentKey("_0"),
                AssignPat(ObjectPat([KeyValueProp(IdentKey("_1"),
                  ObjectPat([AssignProp("y", None), AssignProp("z", None)]))]), d)),
              RestProp(Ident("w"))]))
            == Success(["x", "y", "z", "w"])
  {
    var inner := [AssignProp("y", None), AssignProp("z", None)];
    var ri := seq(|inner|, i requires 0 <= i < |inner| => ResolveProperty(inner[i]));
    assert ri == [Success(["y"])] + [Success(["z"])];
    FlatMapSingle(["y"]);
    FlatMapSingle(["z"]);
    FlatMapOrder([Success(["y"])], [Success(["z"])]);
    assert FlatMap(ri) == Success(["y"] + ["z"]);
    assert ["y"] + ["z"] == ["y", "z"];
    assert Resolve(ObjectPat(inner)) == Success(["y", "z"]);
    var middle := [KeyValueProp(IdentKey("_1"), ObjectPat(inner))];
    var rm := seq(|middle|, i requires 0 <= i < |middle| => ResolveProperty(middle[i]));
    assert rm == [Success(["y", "z"])];
    FlatMapSingle(["y", "z"]);
    assert Resolve(ObjectPat(middle)) == Success(["y", "z"]);
    var outer := [AssignProp("x", None), KeyValueProp(IdentKey("_0"), AssignPat(ObjectPat(middle), d)), RestProp(Ident("w"))];
    var ro := seq(|outer|, i requires 0 <= i < |outer| => ResolveProperty(outer[i]));
    assert ro[0] == Success(["x"]);
    assert Resolve(AssignPat(ObjectPat(middle), d)) == Success(["y", "z"]);
    assert ro[1] == Success(["y", "z"]);
    assert ro[2] == Success(["w"]);
    assert ro == [Success(["x"])] + ([Success(["y", "z"])] + [Success(["w"])]);
    FlatMapSingle(["x"]);
    FlatMapSingle(["w"]);
    FlatMapOrder([Success(["y", "z"])], [Success(["w"])]);
    FlatMapOrder([Success(["x"])], [Success(["y", "z"])] + [Success(["w"])]);
    assert ["x"] + (["y", "z"] + ["w"]) == ["x", "y", "z", "w"];
  }

  lemma FlatMapSingle(names: seq<string>)
    ensures FlatMap([Success(names)]) == Success(names)
  {
    var rs: seq<Result<seq<string>, Error>> := [Success(names)];
    assert rs[1..] == [];
    assert names + [] == names;
  }
}
