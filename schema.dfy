/**
 * The schema that one `multi_structs!` invocation describes: a merged ("whole")
 * struct whose members are named sub-struct definitions ("parts"), each with
 * its own fields. Attributes, visibilities and types are token trees that the
 * macro copies and never interprets.
 */
module Schema {

  type Ident = string

  /** Rust token trees, as the macro matcher sees them. */
  datatype Delimiter = Paren | Bracket | Brace

  datatype TokenTree =
    | Word(text: string)                             // an identifier or keyword
    | Punct(ch: char)
    | Lit(text: string)
    | Group(delim: Delimiter, body: Tokens)

  /** A token stream, read front to back. */
  datatype Tokens = Nil | Cons(head: TokenTree, tail: Tokens)

  /** `#[tokens]`; a doc comment `/// text` reaches the macro as `#[doc = " text"]`. */
  datatype Attr = Attr(tokens: Tokens)

  /** What a `vis` fragment matches: nothing, `pub`, or `pub(scope)`. */
  datatype Visibility = Private | Pub | Restricted(scope: Tokens)

  /** The tokens of a `ty` fragment, opaque to the macro. */
  type Ty = Tokens

  /** `$(#[$field_meta])* $field_vis $field: $ty` */
  datatype Field = Field(attrs: seq<Attr>, vis: Visibility, name: Ident, ty: Ty)

  /** `$(#[$sub_meta])* $sub_vis $var: struct $sub { fields }` */
  datatype Part = Part(attrs: seq<Attr>, vis: Visibility, slot: Ident, typeName: Ident, fields: seq<Field>)

  /** `$(#[$meta])* $multi_vis struct $name { parts }` */
  datatype Whole = Whole(attrs: seq<Attr>, vis: Visibility, name: Ident, parts: seq<Part>)

  function Names(fs: seq<Field>): seq<Ident> {
    seq(|fs|, i requires 0 <= i < |fs| => fs[i].name)
  }

  function NameSet(fs: seq<Field>): set<Ident> {
    set i | 0 <= i < |fs| :: fs[i].name
  }

  function Slots(ps: seq<Part>): seq<Ident> {
    seq(|ps|, i requires 0 <= i < |ps| => ps[i].slot)
  }

  function TypeNames(ps: seq<Part>): seq<Ident> {
    seq(|ps|, i requires 0 <= i < |ps| => ps[i].typeName)
  }

  predicate Distinct<T(==)>(s: seq<T>) {
    forall i, j | 0 <= i < j < |s| :: s[i] != s[j]
  }

  /** The fields of every part, in part order and then field order. */
  function Flatten(ps: seq<Part>): seq<Field> {
    if ps == [] then [] else ps[0].fields + Flatten(ps[1..])
  }

  /** Where the fields of part `i` start in `Flatten(ps)`. */
  function Offset(ps: seq<Part>, i: nat): nat
    requires i <= |ps|
  {
    if i == 0 then 0 else |ps[0].fields| + Offset(ps[1..], i - 1)
  }

  /** The part, and the position inside it, that merged field `k` comes from. */
  function Locate(ps: seq<Part>, k: nat): (r: (nat, nat))
    requires k < |Flatten(ps)|
    ensures r.0 < |ps| && r.1 < |ps[r.0].fields|
    ensures Offset(ps, r.0) + r.1 == k
    ensures Flatten(ps)[k] == ps[r.0].fields[r.1]
  {
    if k < |ps[0].fields| then (0, k)
    else
      var r := Locate(ps[1..], k - |ps[0].fields|);
      (r.0 + 1, r.1)
  }

  lemma {:induction false} FlattenLength(ps: seq<Part>)
    ensures |Flatten(ps)| == Offset(ps, |ps|)
  {
    if ps != [] {
      FlattenLength(ps[1..]);
    }
  }

  /** Field `j` of part `i` sits at position `Offset(ps, i) + j` of the flattened list. */
  lemma {:induction false} FlattenAt(ps: seq<Part>, i: nat, j: nat)
    requires i < |ps| && j < |ps[i].fields|
    ensures Offset(ps, i) + j < |Flatten(ps)|
    ensures Flatten(ps)[Offset(ps, i) + j] == ps[i].fields[j]
  {
    if i > 0 {
      FlattenAt(ps[1..], i - 1, j);
    }
  }

  lemma {:induction false} OffsetNext(ps: seq<Part>, i: nat)
    requires i < |ps|
    ensures Offset(ps, i + 1) == Offset(ps, i) + |ps[i].fields|
  {
    if i > 0 {
      OffsetNext(ps[1..], i - 1);
    }
  }

  lemma {:induction false} OffsetMonotone(ps: seq<Part>, i: nat, i': nat)
    requires i <= i' <= |ps|
    ensures Offset(ps, i) <= Offset(ps, i')
    decreases i' - i
  {
    if i < i' {
      OffsetNext(ps, i);
      OffsetMonotone(ps, i + 1, i');
    }
  }

  /** Every field of an earlier part precedes every field of a later part. */
  lemma FlattenOrder(ps: seq<Part>, i: nat, j: nat, i': nat)
    requires i < i' < |ps| && j < |ps[i].fields|
    ensures Offset(ps, i) + j < Offset(ps, i')
  {
    OffsetNext(ps, i);
    OffsetMonotone(ps, i + 1, i');
  }

  lemma {:induction false} FlattenAppend(ps: seq<Part>, qs: seq<Part>)
    ensures Flatten(ps + qs) == Flatten(ps) + Flatten(qs)
  {
    if ps == [] {
      assert ps + qs == qs;
    } else {
      assert (ps + qs)[1..] == ps[1..] + qs;
      FlattenAppend(ps[1..], qs);
    }
  }

  /** A field name is merged iff some part declares it. */
  lemma {:induction false} FlattenNames(ps: seq<Part>, n: Ident)
    ensures n in NameSet(Flatten(ps)) <==> exists i :: 0 <= i < |ps| && n in NameSet(ps[i].fields)
  {
    if n in NameSet(Flatten(ps)) {
      var k :| 0 <= k < |Flatten(ps)| && Flatten(ps)[k].name == n;
      var r := Locate(ps, k);
      assert n in NameSet(ps[r.0].fields);
    }
    if i :| 0 <= i < |ps| && n in NameSet(ps[i].fields) {
      var j :| 0 <= j < |ps[i].fields| && ps[i].fields[j].name == n;
      FlattenAt(ps, i, j);
    }
  }

  /** No two (part, position) pairs declare the same field name. */
  predicate NoClash(ps: seq<Part>) {
    forall i, j, i', j' |
      && 0 <= i < |ps| && 0 <= j < |ps[i].fields|
      && 0 <= i' < |ps| && 0 <= j' < |ps[i'].fields|
      && (i, j) != (i', j')
      :: ps[i].fields[j].name != ps[i'].fields[j'].name
  }

  /** The merged field list repeats no name iff no two declarations in the schema share one. */
  lemma {:induction false} DistinctNamesIff(ps: seq<Part>)
    ensures Distinct(Names(Flatten(ps))) <==> NoClash(ps)
  {
    var fs := Flatten(ps);
    if Distinct(Names(fs)) {
      forall i, j, i', j' |
        && 0 <= i < |ps| && 0 <= j < |ps[i].fields|
        && 0 <= i' < |ps| && 0 <= j' < |ps[i'].fields|
        && (i, j) != (i', j')
        ensures ps[i].fields[j].name != ps[i'].fields[j'].name
      {
        FlattenAt(ps, i, j);
        FlattenAt(ps, i', j');
        if i < i' {
          FlattenOrder(ps, i, j, i');
        } else if i' < i {
          FlattenOrder(ps, i', j', i);
        }
        assert Names(fs)[Offset(ps, i) + j] != Names(fs)[Offset(ps, i') + j'];
      }
    }
    if NoClash(ps) {
      forall k, k' | 0 <= k < k' < |Names(fs)| ensures Names(fs)[k] != Names(fs)[k'] {
        var r, r' := Locate(ps, k), Locate(ps, k');
      }
    }
  }

  /* What the compiler demands of the schema for the expansion to be accepted. */

  /** The merged struct declares no field twice. */
  predicate UniqueFieldNames(w: Whole) {
    Distinct(Names(Flatten(w.parts)))
  }

  /** `new` binds no parameter twice. */
  predicate UniqueSlots(w: Whole) {
    Distinct(Slots(w.parts))
  }

  /** What `new` and `split` need to compile and to mean what they should. */
  predicate Valid(w: Whole) {
    UniqueFieldNames(w) && UniqueSlots(w)
  }

  /** No two of the emitted structs (the merged one and each part) share a name. */
  predicate UniqueStructNames(w: Whole) {
    Distinct(TypeNames(w.parts) + [w.name])
  }

  /** The shape the macro's input pattern enforces: at least one part, at least one field each. */
  predicate Shape(w: Whole) {
    && |w.parts| > 0
    && forall i | 0 <= i < |w.parts| :: |w.parts[i].fields| > 0
  }

  /** Names unique across the whole schema are unique within each part. */
  lemma {:induction false} UniqueWithinPart(w: Whole, i: nat)
    requires UniqueFieldNames(w) && i < |w.parts|
    ensures Distinct(Names(w.parts[i].fields))
  {
    DistinctNamesIff(w.parts);
    var fs := w.parts[i].fields;
    forall j, j' | 0 <= j < j' < |fs| ensures Names(fs)[j] != Names(fs)[j'] {
      assert (i, j) != (i, j');
    }
  }
}
