/**
 * What the generated `new` and `split` compute. A struct value maps each field
 * name to its value; `Compose` and `Decompose` run the code `Emit` produces
 * (parameter binding, place expressions, struct literals) and yield `None` where
 * the compiler would have rejected that code. `Merge` and `Restrict` are the
 * by-name meaning the expansion is meant to have; the lemmas tie the two
 * together and prove that `split` and `new` undo each other.
 */
module Values {
  import opened Wrappers
  import opened Schema
  import opened Emit

  type Struct<V> = map<Ident, V>
  type Env<V> = map<Ident, Struct<V>>

  /** `v` is a value of a struct declaring the fields `fs`. */
  predicate InstanceOf<V>(v: Struct<V>, fs: seq<Field>) {
    v.Keys == NameSet(fs)
  }

  /** One value of each part's struct, in schema order. */
  predicate Fits<V>(args: seq<Struct<V>>, ps: seq<Part>) {
    && |args| == |ps|
    && forall i | 0 <= i < |ps| :: InstanceOf(args[i], ps[i].fields)
  }

  function EvalPlace<V>(pl: Place, env: Env<V>): Option<V> {
    if pl.base in env && pl.field in env[pl.base] then Some(env[pl.base][pl.field]) else None
  }

  /** A struct literal; naming a field twice is rejected. */
  function EvalInits<V>(inits: seq<FieldInit>, env: Env<V>): Option<Struct<V>> {
    if inits == [] then Some(map[])
    else
      match (EvalPlace(inits[0].value, env), EvalInits(inits[1..], env))
      case (Some(v), Some(rest)) =>
        if inits[0].field in rest then None else Some(rest[inits[0].field := v])
      case _ => None
  }

  /** A tuple of struct literals. */
  function EvalLits<V>(lits: seq<StructLit>, env: Env<V>): Option<seq<Struct<V>>> {
    if lits == [] then Some([])
    else
      match (EvalInits(lits[0].inits, env), EvalLits(lits[1..], env))
      case (Some(v), Some(vs)) => Some([v] + vs)
      case _ => None
  }

  /** Binds arguments to parameters; a wrong arity or a name bound twice is rejected. */
  function Bind<V>(params: seq<Param>, args: seq<Struct<V>>): Option<Env<V>> {
    if |params| != |args| then None
    else if params == [] then Some(map[])
    else
      match Bind(params[1..], args[1..])
      case Some(env) =>
        if params[0].name in env then None else Some(env[params[0].name := args[0]])
      case None => None
  }

  /** A call of the generated `new`. */
  function Compose<V>(w: Whole, args: seq<Struct<V>>): Option<Struct<V>> {
    var f := NewFnOf(w);
    match Bind(f.params, args)
    case Some(env) => EvalInits(f.body, env)
    case None => None
  }

  /** A call of the generated `split`. */
  function Decompose<V>(w: Whole, m: Struct<V>): Option<seq<Struct<V>>> {
    EvalLits(SplitFnOf(w).body, map[SelfParam := m])
  }

  /** Reference meaning of `new`: the union of the parts' fields. */
  function Merge<V>(args: seq<Struct<V>>): Struct<V> {
    if args == [] then map[] else args[0] + Merge(args[1..])
  }

  /** Reference meaning of one component of `split`: the fields of one part. */
  function Restrict<V>(m: Struct<V>, fs: seq<Field>): Struct<V> {
    map n | n in m && n in NameSet(fs) :: m[n]
  }

  lemma NamesTail(fs: seq<Field>)
    requires fs != [] && Distinct(Names(fs))
    ensures Distinct(Names(fs[1..]))
    ensures NameSet(fs) == {fs[0].name} + NameSet(fs[1..])
    ensures fs[0].name !in NameSet(fs[1..])
  {
    assert Names(fs[1..]) == Names(fs)[1..];
    forall j | 1 <= j < |fs| ensures fs[j].name != fs[0].name {
      assert Names(fs)[0] != Names(fs)[j];
    }
    assert forall j | 0 <= j < |fs[1..]| :: fs[1..][j] == fs[j + 1];
  }

  lemma NameSetConcat(a: seq<Field>, b: seq<Field>)
    ensures NameSet(a + b) == NameSet(a) + NameSet(b)
  {
    forall n | n in NameSet(a + b) ensures n in NameSet(a) + NameSet(b) {
      var k :| 0 <= k < |a + b| && (a + b)[k].name == n;
      if k >= |a| {
        assert b[k - |a|].name == n;
      }
    }
    forall n | n in NameSet(a) + NameSet(b) ensures n in NameSet(a + b) {
      if n in NameSet(a) {
        var k :| 0 <= k < |a| && a[k].name == n;
        assert (a + b)[k].name == n;
      } else {
        var k :| 0 <= k < |b| && b[k].name == n;
        assert (a + b)[|a| + k].name == n;
      }
    }
  }

  lemma NamesConcat(a: seq<Field>, b: seq<Field>)
    requires Distinct(Names(a + b))
    ensures Distinct(Names(a)) && Distinct(Names(b))
    ensures NameSet(a + b) == NameSet(a) + NameSet(b)
    ensures NameSet(a) !! NameSet(b)
  {
    assert Names(a) == Names(a + b)[..|a|];
    assert Names(b) == Names(a + b)[|a|..];
    NameSetConcat(a, b);
    forall k, k' | 0 <= k < |a| && 0 <= k' < |b| ensures a[k].name != b[k'].name {
      assert Names(a + b)[k] != Names(a + b)[|a| + k'];
    }
  }

  /** Binding succeeds exactly when arities agree and no parameter name repeats. */
  lemma {:induction false} BindMeaning<V>(params: seq<Param>, args: seq<Struct<V>>)
    ensures Bind(params, args).Some? <==> |params| == |args| && Distinct(ParamNames(params))
    ensures Bind(params, args).Some? ==>
      forall i | 0 <= i < |params| :: params[i].name in Bind(params, args).value
        && Bind(params, args).value[params[i].name] == args[i]
  {
    if |params| == |args| && params != [] {
      var tail := params[1..];
      assert ParamNames(tail) == ParamNames(params)[1..];
      BindMeaning(tail, args[1..]);
      match Bind(tail, args[1..])
      case Some(env) =>
        if params[0].name in env {
          var j :| 0 <= j < |tail| && tail[j].name == params[0].name by {
            BindKeys(tail, args[1..]);
          }
          assert ParamNames(params)[0] == ParamNames(params)[j + 1];
        }
      case None =>
    }
  }

  lemma {:induction false} BindKeys<V>(params: seq<Param>, args: seq<Struct<V>>)
    requires Bind(params, args).Some?
    ensures forall n | n in Bind(params, args).value :: exists j | 0 <= j < |params| :: params[j].name == n
  {
    if params != [] {
      BindKeys(params[1..], args[1..]);
      forall n | n in Bind(params, args).value ensures exists j | 0 <= j < |params| :: params[j].name == n {
        if n != params[0].name {
          var j :| 0 <= j < |params[1..]| && params[1..][j].name == n;
          assert params[j + 1].name == n;
        }
      }
    }
  }

  lemma {:induction false} EvalInitsKeys<V>(inits: seq<FieldInit>, env: Env<V>)
    requires EvalInits(inits, env).Some?
    ensures EvalInits(inits, env).value.Keys == set i | 0 <= i < |inits| :: inits[i].field
  {
    if inits != [] {
      EvalInitsKeys(inits[1..], env);
      var s := set i | 0 <= i < |inits| :: inits[i].field;
      var t := set i | 0 <= i < |inits[1..]| :: inits[1..][i].field;
      assert s == {inits[0].field} + t by {
        forall x | x in s ensures x in {inits[0].field} + t {
          var i :| 0 <= i < |inits| && inits[i].field == x;
          if i > 0 {
            assert inits[1..][i - 1].field == x;
          }
        }
      }
    }
  }

  /** A literal that evaluates names no field twice. */
  lemma {:induction false} EvalInitsDistinct<V>(inits: seq<FieldInit>, env: Env<V>)
    requires EvalInits(inits, env).Some?
    ensures Distinct(InitFields(inits))
  {
    if inits != [] {
      var tail := inits[1..];
      EvalInitsDistinct(tail, env);
      EvalInitsKeys(tail, env);
      assert InitFields(tail) == InitFields(inits)[1..];
      forall j | 1 <= j < |inits| ensures inits[j].field != inits[0].field {
        assert tail[j - 1].field in EvalInits(tail, env).value.Keys;
      }
    }
  }

  /** Two literals over disjoint fields evaluate, side by side, to the union of their values. */
  lemma {:induction false} EvalInitsAppend<V>(a: seq<FieldInit>, b: seq<FieldInit>, env: Env<V>)
    requires EvalInits(a, env).Some? && EvalInits(b, env).Some?
    requires EvalInits(a, env).value.Keys !! EvalInits(b, env).value.Keys
    ensures EvalInits(a + b, env) == Some(EvalInits(a, env).value + EvalInits(b, env).value)
  {
    var ma, mb := EvalInits(a, env).value, EvalInits(b, env).value;
    if a == [] {
      assert a + b == b;
      assert map[] + mb == mb;
    } else {
      var rest := EvalInits(a[1..], env).value;
      var x, v := a[0].field, EvalPlace(a[0].value, env).value;
      assert ma == rest[x := v] && x !in rest;
      EvalInitsAppend(a[1..], b, env);
      assert (a + b)[0] == a[0] && (a + b)[1..] == a[1..] + b;
      assert EvalInits(a + b, env) == Some((rest + mb)[x := v]);
      assert (rest + mb)[x := v] == ma + mb;
    }
  }

  /** Copying every field of `fs` out of `base` yields exactly `base`'s value for those fields. */
  lemma {:induction false} EvalMoveInits<V>(base: Ident, fs: seq<Field>, env: Env<V>)
    requires base in env && NameSet(fs) <= env[base].Keys && Distinct(Names(fs))
    ensures EvalInits(MoveInits(base, fs), env) == Some(Restrict(env[base], fs))
  {
    if fs == [] {
      assert Restrict(env[base], fs) == map[];
    } else {
      NamesTail(fs);
      EvalMoveInits(base, fs[1..], env);
      var v := env[base];
      assert Restrict(v, fs[1..])[fs[0].name := v[fs[0].name]] == Restrict(v, fs);
    }
  }

  lemma {:induction false} MergeKeys<V>(args: seq<Struct<V>>, ps: seq<Part>)
    requires Fits(args, ps)
    ensures Merge(args).Keys == NameSet(Flatten(ps))
  {
    if ps != [] {
      MergeKeys(args[1..], ps[1..]);
      NameSetConcat(ps[0].fields, Flatten(ps[1..]));
    }
  }

  /** In the merged value, a field holds the value of the part that declares it. */
  lemma {:induction false} MergeAt<V>(args: seq<Struct<V>>, ps: seq<Part>, i: nat, n: Ident)
    requires Fits(args, ps) && Distinct(Names(Flatten(ps)))
    requires i < |ps| && n in NameSet(ps[i].fields)
    ensures n in Merge(args) && Merge(args)[n] == args[i][n]
  {
    NamesConcat(ps[0].fields, Flatten(ps[1..]));
    MergeKeys(args[1..], ps[1..]);
    if i > 0 {
      MergeAt(args[1..], ps[1..], i - 1, n);
      FlattenNames(ps[1..], n);
    }
  }

  /** The body of `new` evaluates to the union of the parts bound to their slots. */
  lemma {:induction false} EvalNewBody<V>(ps: seq<Part>, args: seq<Struct<V>>, env: Env<V>)
    requires Fits(args, ps) && Distinct(Names(Flatten(ps)))
    requires forall i | 0 <= i < |ps| :: ps[i].slot in env && env[ps[i].slot] == args[i]
    ensures EvalInits(NewBody(ps), env) == Some(Merge(args))
  {
    if ps != [] {
      NamesConcat(ps[0].fields, Flatten(ps[1..]));
      EvalMoveInits(ps[0].slot, ps[0].fields, env);
      assert Restrict(args[0], ps[0].fields) == args[0];
      EvalNewBody(ps[1..], args[1..], env);
      MergeKeys(args[1..], ps[1..]);
      EvalInitsAppend(MoveInits(ps[0].slot, ps[0].fields), NewBody(ps[1..]), env);
    }
  }

  /** `new` on one value of each part is the union of their fields. */
  lemma ComposeMeaning<V>(w: Whole, args: seq<Struct<V>>)
    requires Valid(w) && Fits(args, w.parts)
    ensures Compose(w, args) == Some(Merge(args))
  {
    var f := NewFnOf(w);
    assert ParamNames(f.params) == Slots(w.parts);
    BindMeaning(f.params, args);
    EvalNewBody(w.parts, args, Bind(f.params, args).value);
  }

  /** `new` fails to compile when two slots share a name. */
  lemma ComposeSharedSlot<V>(w: Whole, args: seq<Struct<V>>)
    requires !UniqueSlots(w)
    ensures Compose(w, args) == None
  {
    var f := NewFnOf(w);
    assert ParamNames(f.params) == Slots(w.parts);
    BindMeaning(f.params, args);
  }

  /** `new` fails to compile when two parts declare the same field name. */
  lemma ComposeDuplicateField<V>(w: Whole, args: seq<Struct<V>>)
    requires !UniqueFieldNames(w)
    ensures Compose(w, args) == None
  {
    NewBodyFields(w.parts);
    var b := Bind(NewFnOf(w).params, args);
    if b.Some? && EvalInits(NewBody(w.parts), b.value).Some? {
      EvalInitsDistinct(NewBody(w.parts), b.value);
    }
  }

  /**
   * `new` populates every merged field, and field `f` of the result is field `f`
   * of the part that declared it.
   */
  lemma NewCopiesFields<V>(w: Whole, args: seq<Struct<V>>)
    requires Valid(w) && Fits(args, w.parts)
    ensures Compose(w, args).Some?
    ensures InstanceOf(Compose(w, args).value, Flatten(w.parts))
    ensures forall i, n | 0 <= i < |w.parts| && n in NameSet(w.parts[i].fields) ::
      n in Compose(w, args).value && Compose(w, args).value[n] == args[i][n]
  {
    ComposeMeaning(w, args);
    MergeKeys(args, w.parts);
    forall i, n | 0 <= i < |w.parts| && n in NameSet(w.parts[i].fields)
      ensures n in Merge(args) && Merge(args)[n] == args[i][n]
    {
      MergeAt(args, w.parts, i, n);
    }
  }

  lemma {:induction false} EvalLitsPointwise<V>(lits: seq<StructLit>, env: Env<V>, vs: seq<Struct<V>>)
    requires |lits| == |vs|
    requires forall i | 0 <= i < |lits| :: EvalInits(lits[i].inits, env) == Some(vs[i])
    ensures EvalLits(lits, env) == Some(vs)
  {
    if lits != [] {
      EvalLitsPointwise(lits[1..], env, vs[1..]);
      assert [vs[0]] + vs[1..] == vs;
    }
  }

  /** `split` yields, for each part in schema order, the merged value's fields of that part. */
  lemma DecomposeMeaning<V>(w: Whole, m: Struct<V>)
    requires UniqueFieldNames(w) && InstanceOf(m, Flatten(w.parts))
    ensures Decompose(w, m).Some? && |Decompose(w, m).value| == |w.parts|
    ensures forall i | 0 <= i < |w.parts| :: Decompose(w, m).value[i] == Restrict(m, w.parts[i].fields)
    ensures Fits(Decompose(w, m).value, w.parts)
  {
    var ps := w.parts;
    var env := map[SelfParam := m];
    var vs := seq(|ps|, i requires 0 <= i < |ps| => Restrict(m, ps[i].fields));
    forall i | 0 <= i < |ps| ensures EvalInits(SplitFnOf(w).body[i].inits, env) == Some(vs[i]) {
      forall n | n in NameSet(ps[i].fields) ensures n in m {
        FlattenNames(ps, n);
      }
      UniqueWithinPart(w, i);
      EvalMoveInits(SelfParam, ps[i].fields, env);
      assert SplitFnOf(w).body[i].inits == MoveInits(SelfParam, ps[i].fields);
    }
    EvalLitsPointwise(SplitFnOf(w).body, env, vs);
    assert Decompose(w, m) == Some(vs);
    forall i | 0 <= i < |ps| ensures InstanceOf(vs[i], ps[i].fields) {
      forall n | n in NameSet(ps[i].fields) ensures n in m {
        FlattenNames(ps, n);
      }
    }
  }

  /** Round trip: splitting what `new` built gives back the parts. */
  lemma SplitAfterNew<V>(w: Whole, args: seq<Struct<V>>)
    requires Valid(w) && Fits(args, w.parts)
    ensures Compose(w, args).Some?
    ensures Decompose(w, Compose(w, args).value) == Some(args)
  {
    ComposeMeaning(w, args);
    MergeKeys(args, w.parts);
    var m := Merge(args);
    DecomposeMeaning(w, m);
    var back := Decompose(w, m).value;
    forall i | 0 <= i < |args| ensures back[i] == args[i] {
      forall n | n in NameSet(w.parts[i].fields) ensures m[n] == args[i][n] {
        MergeAt(args, w.parts, i, n);
      }
      assert Restrict(m, w.parts[i].fields) == args[i];
    }
    assert back == args;
  }

  /** Round trip: `new` on what `split` returned rebuilds the merged value. */
  lemma NewAfterSplit<V>(w: Whole, m: Struct<V>)
    requires Valid(w) && InstanceOf(m, Flatten(w.parts))
    ensures Decompose(w, m).Some?
    ensures Compose(w, Decompose(w, m).value) == Some(m)
  {
    DecomposeMeaning(w, m);
    var parts := Decompose(w, m).value;
    ComposeMeaning(w, parts);
    MergeKeys(parts, w.parts);
    forall n | n in m ensures Merge(parts)[n] == m[n] {
      var k :| 0 <= k < |Flatten(w.parts)| && Flatten(w.parts)[k].name == n;
      var r := Locate(w.parts, k);
      assert w.parts[r.0].fields[r.1].name == n;
      MergeAt(parts, w.parts, r.0, n);
    }
    assert Merge(parts) == m;
  }
}
