/** cmd/pgf/main.go, parseParams: folding -p and --input arguments into one set of values. */
module Params {
  import opened Wrappers

  /** A -p value given once, given repeatedly, or a value from a JSON object. */
  datatype Value = Text(s: string) | List(vs: seq<string>) | Json(raw: string)

  type Values = map<string, Value>

  /** One argument pair: the object of an --input, or the two sides of a -p. */
  datatype Item = Input(values: Values) | Param(key: string, value: string)

  /** strings.Cut at the first '='. */
  function Cut(s: string): Option<(string, string)> {
    if s == "" then None
    else if s[0] == '=' then Some(("", s[1..]))
    else match Cut(s[1..])
      case None => None
      case Some((k, v)) => Some(([s[0]] + k, v))
  }

  predicate IsInput(a: string) { a == "--input" || a == "-i" }

  predicate IsParam(a: string) { a == "-p" || a == "--param" }

  /** The pair at the front of the arguments. */
  function First(args: seq<string>, read: string -> Result<Values>): Result<Item>
    requires args != []
  {
    if |args| < 2 then Err
    else if IsInput(args[0]) then
      match read(args[1])
      case Ok(values) => Ok(Input(values))
      case Err => Err
    else if IsParam(args[0]) then
      match Cut(args[1])
      case Some((k, v)) => Ok(Param(k, v))
      case None => Err
    else Err
  }

  /** The pairs of an argument list, or an error. */
  function Items(args: seq<string>, read: string -> Result<Values>): Result<seq<Item>>
    decreases |args|
  {
    if args == [] then Ok([])
    else
      var first := First(args, read);
      if first.Err? then Err
      else match Items(args[2..], read)
        case Ok(rest) => Ok([first.value] + rest)
        case Err => Err
  }

  /* ---------- What the fold means ---------- */

  /** The values given for a key by -p, in command-line order. */
  function Given(items: seq<Item>, key: string): seq<string> {
    if items == [] then []
    else
      var last := items[|items| - 1];
      Given(items[..|items| - 1], key) + if last.Param? && last.key == key then [last.value] else []
  }

  /** The last --input binding of a key. */
  function LastInput(items: seq<Item>, key: string): Option<Value> {
    if items == [] then None
    else
      var last := items[|items| - 1];
      if last.Input? && key in last.values then Some(last.values[key])
      else LastInput(items[..|items| - 1], key)
  }

  function Promoted(vs: seq<string>): Value
    requires vs != []
  {
    if |vs| == 1 then Text(vs[0]) else List(vs)
  }

  /** What a key ends up bound to. */
  function Bound(items: seq<Item>, key: string): Option<Value> {
    if Given(items, key) != [] then Some(Promoted(Given(items, key))) else LastInput(items, key)
  }

  /** The overrides hold exactly these values for a key: none, one text, or a list. */
  predicate Holds(overrides: Values, key: string, vs: seq<string>) {
    if vs == [] then key !in overrides else key in overrides && overrides[key] == Promoted(vs)
  }

  ghost predicate Means(m: Values, items: seq<Item>) {
    forall k: string :: (if k in m then Some(m[k]) else None) == Bound(items, k)
  }

  /* ---------- The loop ---------- */

  ghost predicate Folded(base: Values, overrides: Values, items: seq<Item>) {
    && (forall k: string :: (if k in base then Some(base[k]) else None) == LastInput(items, k))
    && (forall k: string :: Holds(overrides, k, Given(items, k)))
  }

  lemma InputFolds(base: Values, overrides: Values, items: seq<Item>, values: Values)
    requires Folded(base, overrides, items)
    ensures Folded(base + values, overrides, items + [Input(values)])
  {
    var more := items + [Input(values)];
    assert more[..|items|] == items;
    forall k: string
      ensures Given(more, k) == Given(items, k)
      ensures LastInput(more, k) == if k in values then Some(values[k]) else LastInput(items, k)
    {
      assert Given(more, k) == Given(items, k) + [];
    }
  }

  /** Lines 399-410: one more value for a key, a repeated key being promoted to a list. */
  method AddParam(overrides0: Values, k: string, v: string) returns (overrides: Values)
    ensures forall vs | Holds(overrides0, k, vs) :: Holds(overrides, k, vs + [v])
    ensures forall x: string, vs | x != k && Holds(overrides0, x, vs) :: Holds(overrides, x, vs)
  {
    overrides := overrides0;
    if k in overrides {
      var existing := overrides[k];
      match existing {
        case Text(e) => overrides := overrides[k := List([e, v])];
        case List(e) => overrides := overrides[k := List(e + [v])];
        case Json(_) => overrides := overrides[k := Text(v)];
      }
    } else {
      overrides := overrides[k := Text(v)];
    }
    forall vs | Holds(overrides0, k, vs)
      ensures Holds(overrides, k, vs + [v])
    {
      if |vs| == 1 {
        assert vs + [v] == [vs[0], v];
      }
    }
  }

  /** One more -p in terms of the values given. */
  lemma GivenMore(items: seq<Item>, k: string, v: string, x: string)
    ensures Given(items + [Param(k, v)], x) == if x == k then Given(items, x) + [v] else Given(items, x)
    ensures LastInput(items + [Param(k, v)], x) == LastInput(items, x)
  {
    var more := items + [Param(k, v)];
    assert more[..|more| - 1] == items;
    assert Given(items, x) + [] == Given(items, x);
  }

  lemma ParamFolds(base: Values, overrides: Values, items: seq<Item>, k: string, v: string, overrides': Values)
    requires Folded(base, overrides, items)
    requires forall vs | Holds(overrides, k, vs) :: Holds(overrides', k, vs + [v])
    requires forall x: string, vs | x != k && Holds(overrides, x, vs) :: Holds(overrides', x, vs)
    ensures Folded(base, overrides', items + [Param(k, v)])
  {
    forall x: string
      ensures Holds(overrides', x, Given(items + [Param(k, v)], x))
      ensures LastInput(items + [Param(k, v)], x) == LastInput(items, x)
    {
      GivenMore(items, k, v, x);
      assert Holds(overrides, x, Given(items, x));
    }
  }

  function Prepended(items: seq<Item>, rest: Result<seq<Item>>): Result<seq<Item>> {
    match rest
    case Ok(more) => Ok(items + more)
    case Err => Err
  }

  /** The first i arguments hold the given items. */
  ghost predicate Read(args: seq<string>, read: string -> Result<Values>, items: seq<Item>, i: nat) {
    i <= |args| && Items(args, read) == Prepended(items, Items(args[i..], read))
  }

  lemma ReadStart(args: seq<string>, read: string -> Result<Values>)
    ensures Read(args, read, [], 0)
  {
    assert args[0..] == args;
    assert forall more: seq<Item> :: [] + more == more;
  }

  /** One more pair, or the error it is. */
  lemma ReadStep(args: seq<string>, read: string -> Result<Values>, items: seq<Item>, i: nat)
    requires Read(args, read, items, i) && i < |args|
    ensures First(args[i..], read) ==
              if i + 1 == |args| then Err
              else if IsInput(args[i]) then
                match read(args[i + 1]) case Ok(values) => Ok(Input(values)) case Err => Err
              else if IsParam(args[i]) then
                match Cut(args[i + 1]) case Some((k, v)) => Ok(Param(k, v)) case None => Err
              else Err
    ensures First(args[i..], read).Err? ==> Items(args, read).Err?
    ensures First(args[i..], read).Ok? ==>
              i + 2 <= |args| && Read(args, read, items + [First(args[i..], read).value], i + 2)
  {
    var rest, first := args[i..], First(args[i..], read);
    if first.Ok? {
      assert rest[2..] == args[i + 2..];
      assert forall more: seq<Item> :: items + ([first.value] + more) == items + [first.value] + more;
    }
  }

  method ParseParams(args: seq<string>, read: string -> Result<Values>) returns (r: Result<Values>)
    ensures r.Ok? <==> Items(args, read).Ok?
    ensures r.Ok? ==> Means(r.value, Items(args, read).value)
    ensures r.Ok? ==>
              var items := Items(args, read).value;
              forall k: string :: BoundAs(Given(items, k), LastInput(items, k), r.value, k)
  {
    var base: Values, overrides: Values := map[], map[];
    var i := 0;
    ghost var items: seq<Item> := [];
    ReadStart(args, read);
    while i < |args|
      invariant 0 <= i <= |args| && Folded(base, overrides, items) && Read(args, read, items, i)
    {
      ReadStep(args, read, items, i);
      ghost var first := First(args[i..], read);
      var a := args[i];
      if IsInput(a) {
        if i + 1 >= |args| {
          return Err;
        }
        i := i + 1;
        var parsed := read(args[i]);
        if parsed.Err? {
          return Err;
        }
        InputFolds(base, overrides, items, parsed.value);
        base := base + parsed.value;
      } else if IsParam(a) {
        if i + 1 >= |args| {
          return Err;
        }
        i := i + 1;
        var cut := Cut(args[i]);
        if cut.None? {
          return Err;
        }
        var k, v := cut.value.0, cut.value.1;
        ghost var overrides0 := overrides;
        overrides := AddParam(overrides, k, v);
        ParamFolds(base, overrides0, items, k, v, overrides);
      } else {
        return Err;
      }
      i := i + 1;
      items := items + [first.value];
    }
    assert Items(args[i..], read) == Ok([]);
    FoldEnds(base, overrides, items);
    base := base + overrides;
    r := Ok(base);
    AllBound(base, items);
  }

  /** A key given once by -p is bound to that text, one given more often to the list of its values, and one not given
      so to what the last --input that holds it says. */
  predicate BoundAs(given: seq<string>, input: Option<Value>, m: Values, k: string) {
    && (|given| == 1 ==> k in m && m[k] == Text(given[0]))
    && (|given| > 1 ==> k in m && m[k] == List(given))
    && (given == [] && input.Some? ==> k in m && m[k] == input.value)
    && (given == [] && input == None ==> k !in m)
  }

  lemma AllBound(m: Values, items: seq<Item>)
    requires Means(m, items)
    ensures forall k: string :: BoundAs(Given(items, k), LastInput(items, k), m, k)
  {
    forall k: string
      ensures BoundAs(Given(items, k), LastInput(items, k), m, k)
    {
      assert (if k in m then Some(m[k]) else None) == Bound(items, k);
    }
  }

  lemma FoldEnds(base: Values, overrides: Values, items: seq<Item>)
    requires Folded(base, overrides, items)
    ensures Means(base + overrides, items) && items + [] == items
  {
    forall k: string
      ensures (if k in base + overrides then Some((base + overrides)[k]) else None) == Bound(items, k)
    {
      assert Holds(overrides, k, Given(items, k));
    }
  }

  /* ---------- Order between the two kinds does not matter ---------- */

  function Only(items: seq<Item>, params: bool): seq<Item> {
    if items == [] then []
    else
      var last := items[|items| - 1];
      Only(items[..|items| - 1], params) + if last.Param? == params then [last] else []
  }

  lemma {:induction false} GivenFromParams(items: seq<Item>, key: string)
    ensures Given(items, key) == Given(Only(items, true), key)
  {
    if items != [] {
      var front, last := items[..|items| - 1], items[|items| - 1];
      GivenFromParams(front, key);
      var only := Only(front, true);
      if last.Param? {
        assert (only + [last])[..|only|] == only;
      } else {
        assert Only(items, true) == only;
      }
    }
  }

  lemma {:induction false} LastFromInputs(items: seq<Item>, key: string)
    ensures LastInput(items, key) == LastInput(Only(items, false), key)
  {
    if items != [] {
      var front, last := items[..|items| - 1], items[|items| - 1];
      LastFromInputs(front, key);
      var only := Only(front, false);
      if last.Input? {
        assert (only + [last])[..|only|] == only;
      } else {
        assert Only(items, false) == only;
      }
    }
  }

  /** Items with the same -p part and the same --input part bind every key alike. */
  lemma SamePartsSameValues(a: seq<Item>, b: seq<Item>, m: Values, n: Values)
    requires Only(a, true) == Only(b, true) && Only(a, false) == Only(b, false)
    requires Means(m, a) && Means(n, b)
    ensures m == n
  {
    forall k: string
      ensures k in m <==> k in n
      ensures k in m && k in n ==> m[k] == n[k]
    {
      GivenFromParams(a, k);
      GivenFromParams(b, k);
      LastFromInputs(a, k);
      LastFromInputs(b, k);
      assert (if k in m then Some(m[k]) else None) == Bound(a, k);
      assert (if k in n then Some(n[k]) else None) == Bound(b, k);
    }
  }

  /** The arguments are pairs, each led by one of the four flags. */
  predicate Flagged(args: seq<string>) {
    args == [] || (|args| >= 2 && (IsInput(args[0]) || IsParam(args[0])) && Flagged(args[2..]))
  }

  /** The pairs of one kind, in order: -p pairs or --input pairs. */
  function Pairs(args: seq<string>, params: bool): seq<string>
  {
    if |args| < 2 then []
    else (if IsParam(args[0]) == params then args[..2] else []) + Pairs(args[2..], params)
  }

  lemma {:induction false} OnlyCons(first: Item, rest: seq<Item>, params: bool)
    ensures Only([first] + rest, params) == (if first.Param? == params then [first] else []) + Only(rest, params)
  {
    var all := [first] + rest;
    if rest == [] {
      assert all[..0] == [];
      assert Only(all, params) == (if first.Param? == params then [first] else []);
    } else {
      OnlyCons(first, rest[..|rest| - 1], params);
      assert all[..|all| - 1] == [first] + rest[..|rest| - 1];
    }
  }

  function Consed(first: Result<Item>, rest: Result<seq<Item>>): Result<seq<Item>> {
    if first.Err? || rest.Err? then Err else Ok([first.value] + rest.value)
  }

  /** Reading one pair in front of more. */
  lemma ItemsCons(pair: seq<string>, rest: seq<string>, read: string -> Result<Values>)
    requires |pair| == 2
    ensures First(pair + rest, read) == First(pair, read)
    ensures Items(pair + rest, read) == Consed(First(pair, read), Items(rest, read))
  {
    assert (pair + rest)[2..] == rest;
  }

  /** The whole is accepted exactly when both parts are, and its items of each kind are theirs. */
  ghost predicate InParts(whole: Result<seq<Item>>, params: Result<seq<Item>>, inputs: Result<seq<Item>>) {
    && (whole.Ok? <==> params.Ok? && inputs.Ok?)
    && (whole.Ok? ==> Only(whole.value, true) == params.value && Only(whole.value, false) == inputs.value)
  }

  lemma InPartsCons(first: Result<Item>, isParam: bool, whole: Result<seq<Item>>,
                    params: Result<seq<Item>>, inputs: Result<seq<Item>>)
    requires InParts(whole, params, inputs) && (first.Ok? ==> first.value.Param? == isParam)
    ensures isParam ==> InParts(Consed(first, whole), Consed(first, params), inputs)
    ensures !isParam ==> InParts(Consed(first, whole), params, Consed(first, inputs))
  {
    if first.Ok? && whole.Ok? {
      OnlyCons(first.value, whole.value, true);
      OnlyCons(first.value, whole.value, false);
      assert [] + Only(whole.value, !isParam) == Only(whole.value, !isParam);
    }
  }

  /** An argument list is accepted exactly when its -p pairs and its --input pairs are, each on their own,
      and the two kinds are then read as on their own. */
  lemma {:induction false} ItemsByKind(args: seq<string>, read: string -> Result<Values>)
    requires Flagged(args)
    ensures InParts(Items(args, read), Items(Pairs(args, true), read), Items(Pairs(args, false), read))
    decreases |args|
  {
    if args != [] {
      var pair, rest, isParam := args[..2], args[2..], IsParam(args[0]);
      ItemsByKind(rest, read);
      assert args == pair + rest;
      ItemsCons(pair, rest, read);
      ItemsCons(pair, Pairs(rest, isParam), read);
      assert [] + Pairs(rest, !isParam) == Pairs(rest, !isParam);
      InPartsCons(First(pair, read), isParam, Items(rest, read),
                  Items(Pairs(rest, true), read), Items(Pairs(rest, false), read));
    }
  }

  lemma {:induction false} AcceptedIsFlagged(args: seq<string>, read: string -> Result<Values>)
    requires Items(args, read).Ok?
    ensures Flagged(args)
    decreases |args|
  {
    if args != [] {
      AcceptedIsFlagged(args[2..], read);
    }
  }

  /** Rearranging an accepted argument list so that the -p pairs keep their order and the --input pairs keep
      theirs gives an accepted list that binds every key alike. */
  lemma InterleavingIrrelevant(a: seq<string>, b: seq<string>, read: string -> Result<Values>, m: Values, n: Values)
    requires Items(a, read).Ok? && Flagged(b)
    requires Pairs(a, true) == Pairs(b, true) && Pairs(a, false) == Pairs(b, false)
    ensures Items(b, read).Ok?
    ensures Means(m, Items(a, read).value) && Means(n, Items(b, read).value) ==> m == n
  {
    AcceptedIsFlagged(a, read);
    ItemsByKind(a, read);
    ItemsByKind(b, read);
    if Means(m, Items(a, read).value) && Means(n, Items(b, read).value) {
      SamePartsSameValues(Items(a, read).value, Items(b, read).value, m, n);
    }
  }

  lemma {:induction false} CutAtFirst(k: string, v: string)
    requires '=' !in k
    ensures Cut(k + "=" + v) == Some((k, v))
  {
    var s := k + "=" + v;
    if k == "" {
      assert s[1..] == v;
    } else {
      assert s[1..] == k[1..] + "=" + v;
      CutAtFirst(k[1..], v);
      assert [k[0]] + k[1..] == k;
    }
  }

  lemma {:induction false} CutMeans(s: string)
    ensures match Cut(s)
            case None => '=' !in s
            case Some((k, v)) => s == k + "=" + v && '=' !in k
  {
    if s != "" && s[0] != '=' {
      CutMeans(s[1..]);
      assert s == [s[0]] + s[1..];
      match Cut(s[1..]) {
        case None =>
        case Some((k, v)) => assert [s[0]] + (k + "=" + v) == ([s[0]] + k) + "=" + v;
      }
    } else if s != "" {
      assert s == "" + "=" + s[1..];
    }
  }

  /** Two arguments more: what the flag and its argument are read as. */
  lemma PairMeans(flag: string, arg: string, rest: seq<string>, read: string -> Result<Values>, all: seq<string>)
    requires all == [flag, arg] + rest
    ensures Items(all, read).Ok? <==>
              && Items(rest, read).Ok?
              && (((flag == "-p" || flag == "--param") && '=' in arg) || ((flag == "--input" || flag == "-i") && read(arg).Ok?))
    ensures Items(all, read).Ok? && (flag == "-p" || flag == "--param") ==>
              exists k, v :: arg == k + "=" + v && '=' !in k && Items(all, read).value == [Param(k, v)] + Items(rest, read).value
    ensures Items(all, read).Ok? && (flag == "--input" || flag == "-i") ==>
              Items(all, read).value == [Input(read(arg).value)] + Items(rest, read).value
  {
    assert all[2..] == rest;
    CutMeans(arg);
    FlagsApart();
  }

  lemma FlagsApart()
    ensures "-p" != "-i" && "-p" != "--input" && "--param" != "-i" && "--param" != "--input"
  {
    assert "-p"[1] != "-i"[1] && "--param"[2] != "--input"[2];
  }

  /** A flag without its argument is an error, and no arguments are none. */
  lemma EndsMean(flag: string, read: string -> Result<Values>)
    ensures Items([], read) == Ok([]) && Items([flag], read) == Err
  {
  }

  /** The values given by -p are those of the items for that key, in order, and the input is the last one's. */
  lemma ItemMeans(items: seq<Item>, key: string, k: string, v: string, values: Values)
    ensures Given([], key) == [] && LastInput([], key) == None
    ensures Given(items + [Param(k, v)], key) == if k == key then Given(items, key) + [v] else Given(items, key)
    ensures LastInput(items + [Param(k, v)], key) == LastInput(items, key)
    ensures Given(items + [Input(values)], key) == Given(items, key)
    ensures LastInput(items + [Input(values)], key) == if key in values then Some(values[key]) else LastInput(items, key)
  {
    GivenMore(items, k, v, key);
    assert (items + [Input(values)])[..|items|] == items;
    assert Given(items, key) + [] == Given(items, key);
  }
}
