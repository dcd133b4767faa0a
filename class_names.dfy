/**
 * `cn(...inputs)` from lib/utils.js: assembles a class attribute from strings,
 * arrays and objects of class name to truthiness.
 */
module ClassNames {
  import opened Text

  /** The JavaScript values `cn` can be given; numbers are restricted to integers. */
  datatype Value =
    | Str(s: string)
    | Num(n: int)
    | Bool(b: bool)
    | Null
    | Undefined
    | Arr(elems: seq<Value>)
    | Obj(props: seq<Property>)

  /** An own enumerable property; an object's properties are listed in `Object.keys` order. */
  datatype Property = Property(key: string, value: Value)

  /** `Boolean(v)`. */
  predicate Truthy(v: Value) {
    match v
    case Str(s) => s != ""
    case Num(n) => n != 0
    case Bool(b) => b
    case Null => false
    case Undefined => false
    case Arr(_) => true
    case Obj(_) => true
  }

  /** `String(v)`. */
  function ToText(v: Value): string
    decreases v, 1
  {
    match v
    case Str(s) => s
    case Num(n) => IntToString(n)
    case Bool(b) => if b then "true" else "false"
    case Null => "null"
    case Undefined => "undefined"
    case Arr(es) => JoinElements(es, ",")
    case Obj(_) => "[object Object]"
  }

  /** How `Array.prototype.join` writes one element: `null` and `undefined` become "". */
  function ElementText(v: Value): string
    decreases v, 2
  {
    if v.Null? || v.Undefined? then "" else ToText(v)
  }

  /** `es.join(sep)`. */
  function JoinElements(es: seq<Value>, sep: string): string
    decreases es, 0
  {
    if es == [] then ""
    else if |es| == 1 then ElementText(es[0])
    else ElementText(es[0]) + sep + JoinElements(es[1..], sep)
  }

  /** Strings joined with `sep` between neighbours. */
  function Join(xs: seq<string>, sep: string): string {
    if xs == [] then ""
    else if |xs| == 1 then xs[0]
    else xs[0] + sep + Join(xs[1..], sep)
  }

  function Texts(vs: seq<Value>): (r: seq<string>)
    ensures |r| == |vs| && forall k :: 0 <= k < |vs| ==> r[k] == ElementText(vs[k])
  {
    if vs == [] then [] else [ElementText(vs[0])] + Texts(vs[1..])
  }

  /** `arr.filter(Boolean)`: the truthy elements, in order. */
  function TruthyElements(es: seq<Value>): seq<Value> {
    if es == [] then []
    else (if Truthy(es[0]) then [es[0]] else []) + TruthyElements(es[1..])
  }

  /** The truthy elements of an array argument are kept, and only those. */
  lemma {:induction false} TruthyElementsKept(es: seq<Value>)
    ensures forall v :: v in TruthyElements(es) <==> v in es && Truthy(v)
  {
    if es != [] {
      TruthyElementsKept(es[1..]);
      assert es == [es[0]] + es[1..];
    }
  }

  /** Filtering keeps the order: it distributes over concatenation. */
  lemma {:induction false} TruthyElementsAppend(a: seq<Value>, b: seq<Value>)
    ensures TruthyElements(a + b) == TruthyElements(a) + TruthyElements(b)
  {
    if a != [] {
      assert (a + b)[1..] == a[1..] + b;
      TruthyElementsAppend(a[1..], b);
    } else {
      assert a + b == b;
    }
  }

  /** The keys whose values are truthy, in key order, as class names. */
  function TruthyKeys(ps: seq<Property>): seq<Value> {
    if ps == [] then []
    else (if Truthy(ps[0].value) then [Str(ps[0].key)] else []) + TruthyKeys(ps[1..])
  }

  /** From an object argument exactly the keys with truthy values are taken. */
  lemma {:induction false} TruthyKeysKept(ps: seq<Property>)
    ensures forall v :: v in TruthyKeys(ps) ==> v.Str? && exists p :: p in ps && v.s == p.key && Truthy(p.value)
    ensures forall p :: p in ps && Truthy(p.value) ==> Str(p.key) in TruthyKeys(ps)
  {
    if ps != [] {
      TruthyKeysKept(ps[1..]);
      assert ps == [ps[0]] + ps[1..];
      assert forall p :: p in ps[1..] ==> p in ps;
    }
  }

  /** What one argument adds to `classes`; every other kind of value adds nothing. */
  function Contribution(v: Value): seq<Value> {
    match v
    case Str(_) => [v]
    case Arr(es) => TruthyElements(es)
    case Obj(ps) => TruthyKeys(ps)
    case _ => []
  }

  /** The contents of `classes` after the loop has seen `inputs`. */
  function Contributions(inputs: seq<Value>): seq<Value> {
    if inputs == [] then []
    else Contribution(inputs[0]) + Contributions(inputs[1..])
  }

  /** The pushes of the inner `Object.keys(input).forEach` loop. */
  method PushTruthyKeys(classes: seq<Value>, ps: seq<Property>) returns (r: seq<Value>)
    ensures r == classes + TruthyKeys(ps)
  {
    r := classes;
    var k := 0;
    while k < |ps|
      invariant 0 <= k <= |ps|
      invariant r + TruthyKeys(ps[k..]) == classes + TruthyKeys(ps)
    {
      assert ps[k..][1..] == ps[k + 1..];
      if Truthy(ps[k].value) {
        r := r + [Str(ps[k].key)];
      }
      k := k + 1;
    }
  }

  /** `cn(...inputs)`: every argument's contribution, in argument order, joined by single spaces. */
  method Cn(inputs: seq<Value>) returns (r: string)
    ensures r == Join(Texts(Contributions(inputs)), " ")
  {
    var classes: seq<Value> := [];
    var i := 0;
    while i < |inputs|
      invariant 0 <= i <= |inputs|
      invariant classes == Contributions(inputs[..i])
    {
      var input := inputs[i];
      assert inputs[..i + 1] == inputs[..i] + [input];
      ContributionsSnoc(inputs[..i], input);
      match input {
        case Str(_) =>
          classes := classes + [input];
        case Arr(es) =>
          classes := classes + TruthyElements(es);
        case Obj(ps) =>
          classes := PushTruthyKeys(classes, ps);
        case _ =>
      }
      i := i + 1;
    }
    assert inputs[..i] == inputs;
    r := Join(Texts(classes), " ");
  }

  /** The arguments contribute independently: splitting the argument list splits `classes`. */
  lemma {:induction false} ContributionsAppend(a: seq<Value>, b: seq<Value>)
    ensures Contributions(a + b) == Contributions(a) + Contributions(b)
  {
    if a == [] {
      assert a + b == b;
    } else {
      assert (a + b)[1..] == a[1..] + b;
      ContributionsAppend(a[1..], b);
    }
  }

  /** One more argument appends its contribution. */
  lemma ContributionsSnoc(xs: seq<Value>, v: Value)
    ensures Contributions(xs + [v]) == Contributions(xs) + Contribution(v)
  {
    ContributionsAppend(xs, [v]);
    assert [v][1..] == [];
  }

  /** A string argument is kept verbatim, even the empty string; a non-string primitive adds nothing. */
  lemma SingleArgument(v: Value)
    ensures v.Str? ==> Contributions([v]) == [v]
    ensures !(v.Str? || v.Arr? || v.Obj?) ==> Contributions([v]) == []
  {
    assert [v][1..] == [];
  }

  /** `String.prototype.split(c)`: the pieces between occurrences of `c`; "" splits to [""]. */
  function Split(s: string, c: char): (r: seq<string>)
    ensures |r| > 0
  {
    if c !in s then [s]
    else
      var i := IndexOf(s, c);
      [s[..i]] + Split(s[i + 1..], c)
  }

  function IndexOf(s: string, c: char): (i: nat)
    requires c in s
    ensures i < |s| && s[i] == c && c !in s[..i]
  {
    if s[0] == c then 0 else 1 + IndexOf(s[1..], c)
  }

  /**
   * The output is the class names separated by single spaces and nothing else:
   * when no name contains a space, splitting the result at spaces gives the
   * names back, empty names included.
   */
  lemma {:induction false} SplitJoin(xs: seq<string>)
    requires |xs| > 0
    requires forall k :: 0 <= k < |xs| ==> ' ' !in xs[k]
    ensures Split(Join(xs, " "), ' ') == xs
  {
    if |xs| == 1 {
      assert ' ' !in xs[0];
    } else {
      var s := Join(xs, " ");
      var rest := Join(xs[1..], " ");
      assert s == xs[0] + " " + rest;
      assert s[|xs[0]|] == ' ';
      assert s[..|xs[0]|] == xs[0];
      assert IndexOf(s, ' ') == |xs[0]| by {
        var i := IndexOf(s, ' ');
        assert s[..|xs[0]|] == xs[0];
      }
      assert s[|xs[0]| + 1..] == rest;
      SplitJoin(xs[1..]);
      assert xs == [xs[0]] + xs[1..];
    }
  }

  /** `cn()` is the empty string. */
  lemma NoArguments()
    ensures Join(Texts(Contributions([])), " ") == ""
  {
  }

  /** Nested values in an array argument are kept whole and written with `String`, e.g. `cn([["a", "b"]])` is "a,b". */
  lemma NestedArrayArgument()
    ensures Join(Texts(Contributions([Arr([Arr([Str("a"), Str("b")])])])), " ") == "a,b"
  {
    var inner := Arr([Str("a"), Str("b")]);
    assert [Arr([inner])][1..] == [];
    assert TruthyElements([inner]) == [inner];
    assert JoinElements([Str("a"), Str("b")], ",") == "a" + "," + "b";
  }

  /** No de-duplication: repeating a string argument repeats the class name. */
  lemma NoDeduplication(c: string)
    ensures Contributions([Str(c), Str(c)]) == [Str(c), Str(c)]
  {
    ContributionsSnoc([Str(c)], Str(c));
    SingleArgument(Str(c));
    assert [Str(c)] + [Str(c)] == [Str(c), Str(c)];
  }
}
