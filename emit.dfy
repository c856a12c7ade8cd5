/**
 * The code that `multi_structs!` expands to, as data: one struct declaration per
 * part, the merged struct declaration, and an `impl` block holding `new` and
 * `split`. Each `$(...)+` repetition of the expansion is a map over the parts or
 * fields; the nested repetition that lists the merged struct's fields is `Flatten`.
 */
module Emit {
  import opened Wrappers
  import opened Schema

  /** `attrs vis struct name { fields }` */
  datatype StructDecl = StructDecl(attrs: seq<Attr>, vis: Visibility, name: Ident, fields: seq<Field>)

  /** `name: ty` in a parameter list. */
  datatype Param = Param(name: Ident, ty: Ident)

  /** The place expression `base.field`. */
  datatype Place = Place(base: Ident, field: Ident)

  /** `field: base.field` inside a struct literal. */
  datatype FieldInit = FieldInit(field: Ident, value: Place)

  /** `typeName { inits }` */
  datatype StructLit = StructLit(typeName: Ident, inits: seq<FieldInit>)

  /** `/// doc  vis fn new(params) -> Self { Self { body } }` */
  datatype NewFn = NewFn(doc: string, vis: Visibility, params: seq<Param>, body: seq<FieldInit>)

  /** `/// doc  vis fn split(self) -> (results,) { (body,) }` */
  datatype SplitFn = SplitFn(doc: string, vis: Visibility, results: seq<Ident>, body: seq<StructLit>)

  datatype Impl = Impl(selfTy: Ident, newFn: NewFn, splitFn: SplitFn)

  datatype Expansion = Expansion(parts: seq<StructDecl>, merged: StructDecl, impl: Impl)

  const SelfParam: Ident := "self"
  const NewDoc := "Create this struct from sub-structs."
  const SplitDoc := "Split this struct into its sub-structs."

  function PartDecl(p: Part): StructDecl {
    StructDecl(p.attrs, p.vis, p.typeName, p.fields)
  }

  function PartDecls(w: Whole): seq<StructDecl> {
    seq(|w.parts|, i requires 0 <= i < |w.parts| => PartDecl(w.parts[i]))
  }

  function MergedDecl(w: Whole): StructDecl {
    StructDecl(w.attrs, w.vis, w.name, Flatten(w.parts))
  }

  /** `$($field: base.$field,)+` */
  function MoveInits(base: Ident, fs: seq<Field>): seq<FieldInit> {
    if fs == [] then [] else [FieldInit(fs[0].name, Place(base, fs[0].name))] + MoveInits(base, fs[1..])
  }

  /** The body of `new`: `$( $($field: $var.$field,)+ )+` */
  function NewBody(ps: seq<Part>): seq<FieldInit> {
    if ps == [] then [] else MoveInits(ps[0].slot, ps[0].fields) + NewBody(ps[1..])
  }

  function NewFnOf(w: Whole): NewFn {
    NewFn(NewDoc, w.vis,
          seq(|w.parts|, i requires 0 <= i < |w.parts| => Param(w.parts[i].slot, w.parts[i].typeName)),
          NewBody(w.parts))
  }

  function SplitFnOf(w: Whole): SplitFn {
    SplitFn(SplitDoc, w.vis, TypeNames(w.parts),
            seq(|w.parts|, i requires 0 <= i < |w.parts| =>
                  StructLit(w.parts[i].typeName, MoveInits(SelfParam, w.parts[i].fields))))
  }

  /** The whole expansion of one macro invocation. */
  function Expand(w: Whole): Expansion {
    Expansion(PartDecls(w), MergedDecl(w), Impl(w.name, NewFnOf(w), SplitFnOf(w)))
  }

  function InitFields(inits: seq<FieldInit>): seq<Ident> {
    seq(|inits|, i requires 0 <= i < |inits| => inits[i].field)
  }

  function ParamNames(params: seq<Param>): seq<Ident> {
    seq(|params|, i requires 0 <= i < |params| => params[i].name)
  }

  /** A struct literal names every field of its struct exactly once. */
  predicate LiteralCovers(inits: seq<FieldInit>, fields: seq<Field>) {
    && Distinct(InitFields(inits))
    && (set i | 0 <= i < |inits| :: inits[i].field) == NameSet(fields)
  }

  /** Every struct the expansion declares: the parts, then the merged struct. */
  function Decls(e: Expansion): seq<StructDecl> {
    e.parts + [e.merged]
  }

  function DeclNames(decls: seq<StructDecl>): seq<Ident> {
    seq(|decls|, i requires 0 <= i < |decls| => decls[i].name)
  }

  /** The declaration a struct path names. */
  function Resolve(decls: seq<StructDecl>, name: Ident): Option<StructDecl> {
    if decls == [] then None
    else if decls[0].name == name then Some(decls[0])
    else Resolve(decls[1..], name)
  }

  /** A struct literal names a declared struct and populates each of its fields once. */
  predicate LiteralFits(decls: seq<StructDecl>, lit: StructLit) {
    var d := Resolve(decls, lit.typeName);
    d.Some? && LiteralCovers(lit.inits, d.value.fields)
  }

  /**
   * The checks the compiler applies to an expansion that this model covers:
   * no two structs share a name, no struct declares a field twice, `new` binds
   * no parameter twice, and every struct literal populates each field of its
   * struct exactly once.
   */
  predicate Accepted(e: Expansion) {
    && Distinct(DeclNames(Decls(e)))
    && Distinct(Names(e.merged.fields))
    && (forall i | 0 <= i < |e.parts| :: Distinct(Names(e.parts[i].fields)))
    && Distinct(ParamNames(e.impl.newFn.params))
    && LiteralCovers(e.impl.newFn.body, e.merged.fields)
    && (forall i | 0 <= i < |e.impl.splitFn.body| :: LiteralFits(Decls(e), e.impl.splitFn.body[i]))
  }

  /** Among declarations with distinct names, each one's name resolves to itself. */
  lemma {:induction false} ResolveAt(decls: seq<StructDecl>, i: nat)
    requires i < |decls| && Distinct(DeclNames(decls))
    ensures Resolve(decls, decls[i].name) == Some(decls[i])
  {
    if i > 0 {
      assert DeclNames(decls)[0] != DeclNames(decls)[i];
      assert DeclNames(decls[1..]) == DeclNames(decls)[1..];
      ResolveAt(decls[1..], i - 1);
    }
  }

  /** Field `j` of `fs` is copied from `base.field` under its own name. */
  lemma {:induction false} MoveInitsAt(base: Ident, fs: seq<Field>, j: nat)
    requires j < |fs|
    ensures |MoveInits(base, fs)| == |fs|
    ensures MoveInits(base, fs)[j] == FieldInit(fs[j].name, Place(base, fs[j].name))
  {
    if j > 0 {
      MoveInitsAt(base, fs[1..], j - 1);
    } else {
      MoveInitsLength(base, fs);
    }
  }

  lemma {:induction false} MoveInitsLength(base: Ident, fs: seq<Field>)
    ensures |MoveInits(base, fs)| == |fs|
  {
    if fs != [] {
      MoveInitsLength(base, fs[1..]);
    }
  }

  /** A part's literal lists that part's fields in their declared order. */
  lemma MoveInitsFields(base: Ident, fs: seq<Field>)
    ensures InitFields(MoveInits(base, fs)) == Names(fs)
  {
    MoveInitsLength(base, fs);
    forall j | 0 <= j < |fs| ensures InitFields(MoveInits(base, fs))[j] == Names(fs)[j] {
      MoveInitsAt(base, fs, j);
    }
  }

  lemma {:induction false} NewBodyLength(ps: seq<Part>)
    ensures |NewBody(ps)| == |Flatten(ps)|
  {
    if ps != [] {
      MoveInitsLength(ps[0].slot, ps[0].fields);
      NewBodyLength(ps[1..]);
    }
  }

  /**
   * `new` sets the merged field at the position of field `j` of part `i` from
   * the same-named field of that part's parameter.
   */
  lemma {:induction false} NewBodyAt(ps: seq<Part>, i: nat, j: nat)
    requires i < |ps| && j < |ps[i].fields|
    ensures |NewBody(ps)| == |Flatten(ps)|
    ensures Offset(ps, i) + j < |NewBody(ps)|
    ensures NewBody(ps)[Offset(ps, i) + j] == FieldInit(ps[i].fields[j].name, Place(ps[i].slot, ps[i].fields[j].name))
  {
    NewBodyLength(ps);
    FlattenAt(ps, i, j);
    MoveInitsLength(ps[0].slot, ps[0].fields);
    if i == 0 {
      MoveInitsAt(ps[0].slot, ps[0].fields, j);
    } else {
      NewBodyAt(ps[1..], i - 1, j);
    }
  }

  /** `new` initialises exactly the merged fields, in the merged struct's order. */
  lemma NewBodyFields(ps: seq<Part>)
    ensures InitFields(NewBody(ps)) == Names(Flatten(ps))
  {
    NewBodyLength(ps);
    forall k | 0 <= k < |Flatten(ps)| ensures InitFields(NewBody(ps))[k] == Names(Flatten(ps))[k] {
      var r := Locate(ps, k);
      NewBodyAt(ps, r.0, r.1);
    }
  }

  /**
   * Metadata fidelity: field `j` of part `i` appears unchanged (attributes,
   * visibility, name, type) in its part's declaration and in the merged
   * declaration, which itself carries the whole's own attributes, visibility and name.
   */
  lemma FieldFidelity(w: Whole, i: nat, j: nat)
    requires i < |w.parts| && j < |w.parts[i].fields|
    ensures |Expand(w).parts| == |w.parts|
    ensures Expand(w).parts[i] == StructDecl(w.parts[i].attrs, w.parts[i].vis, w.parts[i].typeName, w.parts[i].fields)
    ensures var m := Expand(w).merged;
      && m.attrs == w.attrs && m.vis == w.vis && m.name == w.name
      && Offset(w.parts, i) + j < |m.fields|
      && m.fields[Offset(w.parts, i) + j] == w.parts[i].fields[j]
  {
    FlattenAt(w.parts, i, j);
  }

  /**
   * The signatures of `new` and `split`: one parameter per part in schema order,
   * named by the slot and typed by the part's struct; a tuple of the part
   * structs; both with the merged struct's visibility.
   */
  lemma Signatures(w: Whole)
    ensures var f := Expand(w).impl.newFn;
      && f.vis == w.vis && |f.params| == |w.parts|
      && forall i | 0 <= i < |w.parts| :: f.params[i] == Param(w.parts[i].slot, w.parts[i].typeName)
    ensures var g := Expand(w).impl.splitFn;
      && g.vis == w.vis && |g.results| == |g.body| == |w.parts|
      && forall i | 0 <= i < |w.parts| ::
           && g.results[i] == w.parts[i].typeName
           && g.body[i].typeName == w.parts[i].typeName
           && InitFields(g.body[i].inits) == Names(w.parts[i].fields)
  {
    forall i | 0 <= i < |w.parts| ensures InitFields(SplitFnOf(w).body[i].inits) == Names(w.parts[i].fields) {
      MoveInitsFields(SelfParam, w.parts[i].fields);
    }
  }

  /** Reads the schema back out of an expansion. */
  function Recover(e: Expansion): Whole
    requires |e.impl.newFn.params| == |e.parts|
  {
    Whole(e.merged.attrs, e.merged.vis, e.merged.name,
          seq(|e.parts|, i requires 0 <= i < |e.parts| =>
                Part(e.parts[i].attrs, e.parts[i].vis, e.impl.newFn.params[i].name, e.parts[i].name, e.parts[i].fields)))
  }

  /** The expansion loses nothing of the schema: different schemas expand differently. */
  lemma ExpandLossless(w: Whole)
    ensures |Expand(w).impl.newFn.params| == |Expand(w).parts|
    ensures Recover(Expand(w)) == w
  {
    assert Recover(Expand(w)).parts == w.parts;
  }

  lemma LiteralCoversNames(inits: seq<FieldInit>, fs: seq<Field>)
    requires InitFields(inits) == Names(fs) && Distinct(Names(fs))
    ensures LiteralCovers(inits, fs)
  {
    assert forall i | 0 <= i < |inits| :: inits[i].field == InitFields(inits)[i];
    assert forall i | 0 <= i < |fs| :: fs[i].name == Names(fs)[i];
  }

  /**
   * Duplicate detection happens in the compiler, not in the macro: the
   * expansion is accepted exactly when field names are unique across all
   * parts, slot names are unique, and the emitted structs have distinct names.
   */
  lemma AcceptedIff(w: Whole)
    ensures Accepted(Expand(w)) <==> Valid(w) && UniqueStructNames(w)
  {
    var e := Expand(w);
    assert ParamNames(e.impl.newFn.params) == Slots(w.parts);
    assert DeclNames(Decls(e)) == TypeNames(w.parts) + [w.name];
    if Valid(w) && UniqueStructNames(w) {
      forall i | 0 <= i < |w.parts| ensures Distinct(Names(e.parts[i].fields)) {
        UniqueWithinPart(w, i);
      }
      NewBodyFields(w.parts);
      LiteralCoversNames(e.impl.newFn.body, e.merged.fields);
      forall i | 0 <= i < |e.impl.splitFn.body| ensures LiteralFits(Decls(e), e.impl.splitFn.body[i]) {
        UniqueWithinPart(w, i);
        MoveInitsFields(SelfParam, w.parts[i].fields);
        LiteralCoversNames(e.impl.splitFn.body[i].inits, e.parts[i].fields);
        ResolveAt(Decls(e), i);
        assert Decls(e)[i] == e.parts[i];
      }
    }
  }
}
