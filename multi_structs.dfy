/**
 * One use of `multi_structs!`: the invocation's tokens are matched against the
 * input pattern and, when they match, expanded. The crate documentation's own
 * example (a `Merged` struct built from `Foo { a, b }` and `Bar { c, d }`) is
 * worked through at the end.
 */
module MultiStructs {
  import opened Wrappers
  import opened Schema
  import opened Emit
  import opened Grammar
  import opened Values

  /**
   * The macro: match, then expand. What it produces is the expansion of a
   * schema, and that schema renders to the invocation itself.
   */
  function Invoke(ts: Tokens): (r: Result<Expansion, ParseError>)
    ensures r.Ok? <==> Parse(ts).Ok?
    ensures r.Ok? ==> |r.value.impl.newFn.params| == |r.value.parts|
    ensures r.Ok? ==> r.value == Expand(Recover(r.value))
    ensures r.Ok? ==> WholeOk(Recover(r.value)) && Shape(Recover(r.value))
    ensures r.Ok? ==> exists tcs: seq<bool> | |tcs| == |Recover(r.value).parts| :: Render(Recover(r.value), tcs) == ts
  {
    match Parse(ts)
    case Err(e) => Err(e)
    case Ok((w, tcs)) =>
      ExpandLossless(w);
      assert Render(Recover(Expand(w)), tcs) == ts;
      Ok(Expand(w))
  }

  /** Invoking the macro on a printed schema expands that schema. */
  lemma InvokeRender(w: Whole, tcs: seq<bool>)
    requires Printable(w) && |tcs| == |w.parts|
    ensures Invoke(Render(w, tcs)) == Ok(Expand(w))
  {
    ParseRender(w, tcs);
  }

  /** An invocation the macro matches compiles exactly when its names are unique. */
  lemma InvokeAccepted(ts: Tokens)
    ensures Invoke(ts).Ok? ==>
      (Accepted(Invoke(ts).value) <==> Valid(Parse(ts).value.0) && UniqueStructNames(Parse(ts).value.0))
  {
    if Invoke(ts).Ok? {
      AcceptedIff(Parse(ts).value.0);
    }
  }

  /* ---------- The documented example ---------- */

  /** `/// text`, as the macro receives it: `#[doc = " text"]`. */
  function Doc(text: string): Attr {
    Attr(Cons(Word("doc"), Cons(Punct('='), Cons(Lit(" " + text), Nil))))
  }

  const DeriveDebug := Attr(Cons(Word("derive"), Cons(Group(Paren, Cons(Word("Debug"), Nil)), Nil)))

  function PlainField(name: Ident, ty: string): Field {
    Field([Doc(name)], Private, name, Cons(Word(ty), Nil))
  }

  const Foo := Part([Doc("Foo"), DeriveDebug], Private, "foo", "Foo", [PlainField("a", "i32"), PlainField("b", "i64")])
  const Bar := Part([Doc("Bar"), DeriveDebug], Private, "bar", "Bar", [PlainField("c", "usize"), PlainField("d", "String")])
  const Merged := Whole([Doc("The merged struct."), DeriveDebug], Private, "Merged", [Foo, Bar])

  /** The example's invocation ends each part's fields with a comma. */
  const MergedTokens := Render(Merged, [true, true])

  lemma ExampleFlatten()
    ensures Flatten(Merged.parts) == Foo.fields + Bar.fields
  {
    assert Merged.parts[1..] == [Bar];
    assert Flatten([Bar]) == Bar.fields + Flatten([]);
  }

  /** A field with one doc attribute, no visibility and a one-word type prints and parses back. */
  lemma PlainFieldOk(name: Ident, ty: string)
    requires name != "_" && name != "pub"
    ensures FieldOk(PlainField(name, ty)) && DepthAfter(PlainField(name, ty).ty, 0) == 0
  {
  }

  lemma ExamplePrintable()
    ensures Printable(Merged)
  {
    PlainFieldOk("a", "i32");
    PlainFieldOk("b", "i64");
    PlainFieldOk("c", "usize");
    PlainFieldOk("d", "String");
    assert PartOk(Foo) && PartOk(Bar);
  }

  lemma ExampleValid()
    ensures Valid(Merged)
  {
    ExampleFlatten();
    assert Names(Flatten(Merged.parts)) == ["a", "b", "c", "d"];
    assert Slots(Merged.parts) == ["foo", "bar"];
  }

  /** The example's invocation matches and expands to the example's schema. */
  lemma ExampleInvoke()
    ensures Invoke(MergedTokens) == Ok(Expand(Merged))
  {
    ExamplePrintable();
    InvokeRender(Merged, [true, true]);
  }

  /**
   * The example expands to `Foo`, `Bar` and `Merged { a, b, c, d }`, with
   * `new(foo: Foo, bar: Bar)` and `split(self) -> (Foo, Bar)`, and compiles.
   */
  lemma ExampleExpansion()
    ensures |Expand(Merged).parts| == 2
    ensures Expand(Merged).parts[0].name == "Foo" && Expand(Merged).parts[1].name == "Bar"
    ensures Names(Expand(Merged).merged.fields) == ["a", "b", "c", "d"]
    ensures Expand(Merged).impl.newFn.params == [Param("foo", "Foo"), Param("bar", "Bar")]
    ensures Expand(Merged).impl.splitFn.results == ["Foo", "Bar"]
  {
    ExampleFlatten();
  }

  lemma ExampleAccepted()
    ensures Accepted(Expand(Merged))
  {
    ExampleValid();
    assert TypeNames(Merged.parts) + [Merged.name] == ["Foo", "Bar", "Merged"];
    AcceptedIff(Merged);
  }

  /** Two parts that both declare a struct `A`, with distinct fields and slots. */
  const Twins := Whole([], Private, "M", [
    Part([], Private, "foo", "A", [PlainField("x", "i32")]),
    Part([], Private, "bar", "A", [PlainField("y", "i32")])])

  /**
   * Unique field and slot names are not enough: the expansion declares `A`
   * twice, and the compiler rejects it.
   */
  lemma TwinsRejected()
    ensures Valid(Twins) && !UniqueStructNames(Twins)
    ensures !Accepted(Expand(Twins))
  {
    assert Twins.parts[1..][1..] == [];
    assert Names(Flatten(Twins.parts)) == ["x", "y"];
    assert Slots(Twins.parts) == ["foo", "bar"];
    assert (TypeNames(Twins.parts) + [Twins.name])[0] == (TypeNames(Twins.parts) + [Twins.name])[1];
    AcceptedIff(Twins);
  }

  /** Two parts that both declare a field `x`. */
  const Clash := Whole([], Private, "Clash", [
    Part([], Private, "foo", "Foo", [PlainField("x", "i32")]),
    Part([], Private, "bar", "Bar", [PlainField("x", "i64")])])

  lemma ClashFields()
    ensures Names(Flatten(Clash.parts)) == ["x", "x"]
  {
    assert Clash.parts[1..][1..] == [];
  }

  lemma ClashPrintable()
    ensures Printable(Clash)
  {
    PlainFieldOk("x", "i32");
    PlainFieldOk("x", "i64");
  }

  /**
   * The macro matches an invocation in which two parts declare the same field
   * name and expands it; the compiler then rejects the expansion, and `new`
   * has no value.
   */
  lemma ClashExpands()
    ensures Invoke(Render(Clash, [false, false])) == Ok(Expand(Clash))
    ensures !Accepted(Expand(Clash))
    ensures forall args: seq<Struct<Value>> :: Compose(Clash, args) == None
  {
    ClashPrintable();
    InvokeRender(Clash, [false, false]);
    ClashFields();
    assert !UniqueFieldNames(Clash) by {
      assert Names(Flatten(Clash.parts))[0] == Names(Flatten(Clash.parts))[1];
    }
    AcceptedIff(Clash);
    forall args: seq<Struct<Value>> ensures Compose(Clash, args) == None {
      ComposeDuplicateField(Clash, args);
    }
  }

  /** The example's field values. */
  datatype Value = Int(n: int) | Text(s: string)

  const FooValue: Struct<Value> := map["a" := Int(1), "b" := Int(2)]
  const BarValue: Struct<Value> := map["c" := Int(3), "d" := Text("aaa")]

  lemma NameSetPair(f: Field, g: Field)
    ensures NameSet([f, g]) == {f.name, g.name}
  {
    assert [f, g][0] == f && [f, g][1] == g;
  }

  lemma ExampleFits()
    ensures Fits([FooValue, BarValue], Merged.parts)
  {
    NameSetPair(Foo.fields[0], Foo.fields[1]);
    NameSetPair(Bar.fields[0], Bar.fields[1]);
  }

  lemma ExampleMerge()
    ensures Merge([FooValue, BarValue]) == map["a" := Int(1), "b" := Int(2), "c" := Int(3), "d" := Text("aaa")]
  {
    assert [FooValue, BarValue][1..] == [BarValue];
    assert Merge([BarValue]) == BarValue + map[];
  }

  /** `Merged::new(foo, bar)` holds all four values, and `split` gives `foo` and `bar` back. */
  lemma ExampleValues()
    ensures Compose(Merged, [FooValue, BarValue]) == Some(map["a" := Int(1), "b" := Int(2), "c" := Int(3), "d" := Text("aaa")])
    ensures Decompose(Merged, Compose(Merged, [FooValue, BarValue]).value) == Some([FooValue, BarValue])
  {
    ExampleValid();
    ExampleFits();
    ComposeMeaning(Merged, [FooValue, BarValue]);
    ExampleMerge();
    SplitAfterNew(Merged, [FooValue, BarValue]);
  }
}
