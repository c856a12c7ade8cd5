# multi_structs! in Dafny

`multi_structs!` is a declarative Rust macro. It takes one "merged" struct
whose members are named sub-struct definitions ("parts"), each with its own
fields. It expands to:

- one struct declaration per part, copied as written;
- the merged struct, whose fields are every part's fields in part order and
  then field order;
- `new`, which takes one value of each part and moves each field into the
  same-named field of the merged struct;
- `split`, which consumes the merged value and rebuilds each part from its
  fields, returning the parts as a tuple in schema order.

Attributes, visibilities and types are token trees that the macro copies and
never interprets. `new` and `split` take the merged struct's visibility.

The model has six modules:

- `Wrappers` (`wrappers.dfy`): `Option` and `Result`.
- `Schema` (`schema.dfy`): token trees, fields, parts and the whole schema.
  `Flatten` is the nested repetition that lists the merged fields. `Offset`
  and `Locate` relate a merged position to its part and field. Uniqueness
  predicates say what the compiler demands of the expansion.
- `Grammar` (`grammar.dfy`): the macro's input pattern as a matcher over
  token streams (`Parse`) and a printer (`Render`). Every accepted input is
  the rendering of the schema returned, and every printable schema parses
  back.
- `Emit` (`emit.dfy`): the expansion as data. It holds the struct
  declarations, `new`'s parameters and struct literal, and `split`'s result
  types and struct literals. `Accepted` covers the compiler checks that
  depend on the schema: distinct struct names, distinct field names,
  distinct parameter names, and struct literals that populate every field
  of the struct they name exactly once.
- `Values` (`values.dfy`): runs the generated `new` and `split` over struct
  values. A struct value is a map from field name to value. `Compose` binds
  parameters and evaluates place expressions and struct literals. It rejects
  what the compiler would reject, such as a field named twice in a literal or
  a parameter bound twice. `Decompose` evaluates `split`'s tuple of
  literals. `Merge` and `Restrict` give the by-name meaning the expansion is
  meant to have.
- `MultiStructs` (`multi_structs.dfy`): one macro call (`Invoke`: match,
  then expand). It also works through the crate documentation's `Merged`
  example and a schema whose parts share a field name.

Where the code and the usual description of this macro differ, the model
follows the code:

- **Duplicate names.** The macro detects neither duplicate field names nor
  duplicate struct names. It expands such an input, and the compiler rejects
  the expansion. This is `Emit.AcceptedIff` together with
  `MultiStructs.ClashExpands` and `MultiStructs.TwinsRejected`. No
  `DuplicateField` error exists.
- **Error kinds.** The macro has no separate errors for a syntax error, an
  empty part or an empty schema. The model reports every mismatch as one
  error kind, `Grammar.ParseError`. It carries the token at which matching
  stopped, or no token when the input, or the brace group being matched,
  ran out. rustc's own messages differ in detail: it names the closing
  delimiter of a group, and a type that starts but fails to parse gets a
  parser error of its own. The model does not distinguish these.

## Model

| member | source | states |
|---|---|---|
| Schema.Locate | src/lib.rs:95-100 | merged field `k` comes from part `r.0` at position `r.1`: that part's offset plus `r.1` is `k`, and the field there is the same. Uniqueness of that origin follows from FlattenAt and FlattenOrder |
| Schema.FlattenAt | src/lib.rs:95-100 | field `j` of part `i` appears in the merged field list at `Offset(i) + j` |
| Schema.FlattenLength | src/lib.rs:95-100 | the merged struct has as many fields as all parts together |
| Schema.FlattenOrder | src/lib.rs:95-100 | every field of an earlier part comes before every field of a later part |
| Schema.FlattenAppend | src/lib.rs:95-100 | flattening schema parts `ps + qs` lists the fields of `ps`, then the fields of `qs` |
| Schema.FlattenNames | src/lib.rs:93-101 | a name is a merged field name iff some part declares it |
| Schema.DistinctNamesIff | src/lib.rs:93-101 | the merged struct repeats no field name iff no two field declarations anywhere in the schema share a name |
| Schema.UniqueWithinPart | src/lib.rs:85-90 | names unique across the schema are unique within each part's own declaration |
| Emit.MoveInitsAt | src/lib.rs:120 | position `j` of a part literal sets field `j` from the same-named field of its source |
| Emit.MoveInitsFields | src/lib.rs:119-121 | a part's struct literal names that part's fields, in declared order |
| Emit.NewBodyLength | src/lib.rs:108-112 | `new`'s literal has one initialiser per merged field |
| Emit.NewBodyAt | src/lib.rs:108-112 | at the merged position of field `j` of part `i`, `new` reads that field from the part's parameter under the same name |
| Emit.NewBodyFields | src/lib.rs:108-112 | `new` initialises exactly the merged fields, in the merged struct's order |
| Emit.FieldFidelity | src/lib.rs:83-101 | one declaration per part, with the part's own attributes, visibility, name and fields. The merged declaration carries the whole's attributes, visibility and name, and each field is unchanged, with its own attributes, visibility, name and type |
| Emit.Signatures | src/lib.rs:103-124 | `new` has one parameter per part, in order, named by the slot and typed by the part struct. `split` returns the part structs in order, each rebuilt with its declared fields. Both have the merged struct's visibility |
| Emit.ExpandLossless | src/lib.rs:82-126 | the schema can be read back out of its expansion, so different schemas expand differently |
| Emit.LiteralCoversNames | src/lib.rs:108-112 | a literal listing a struct's distinct field names, in order, populates each field once |
| Emit.ResolveAt | src/lib.rs:119 | among declarations with distinct names, a struct path resolves to the declaration of that name |
| Emit.AcceptedIff | src/lib.rs:82-126 | the expansion passes the compiler checks of `Accepted` iff field names are unique across all parts, slot names are unique, and the merged struct and the part structs have distinct names |
| Values.BindMeaning | src/lib.rs:105-107 | binding `new`'s arguments succeeds iff the arity matches and no parameter name repeats. Each parameter is then bound to its argument |
| Values.BindKeys | src/lib.rs:105-107 | only parameter names are bound |
| Values.EvalInitsKeys | src/lib.rs:108-112 | an evaluated struct literal has exactly the fields it names |
| Values.EvalInitsDistinct | src/lib.rs:108-112 | a struct literal that evaluates names no field twice |
| Values.EvalInitsAppend | src/lib.rs:108-112 | two literals over disjoint fields, written side by side, evaluate to the union of their values |
| Values.EvalMoveInits | src/lib.rs:119-121 | copying every field of a part out of a value gives that value's fields of that part |
| Values.MergeKeys | src/lib.rs:93-101 | the union of one value per part has exactly the merged fields |
| Values.MergeAt | src/lib.rs:108-112 | in the union, each field holds the value of the part that declares it |
| Values.EvalNewBody | src/lib.rs:108-112 | `new`'s body evaluates to the union of the arguments bound to the slots |
| Values.ComposeMeaning | src/lib.rs:105-113 | for a valid schema and one value of each part, `new` returns the union of their fields |
| Values.ComposeSharedSlot | src/lib.rs:105-107 | `new` does not compile when two slots share a name |
| Values.ComposeDuplicateField | src/lib.rs:108-112 | `new` does not compile when two parts declare the same field |
| Values.NewCopiesFields | src/lib.rs:108-112 | `new` populates every merged field, and each field holds the value of the same-named field of the part that declared it |
| Values.EvalLitsPointwise | src/lib.rs:117-123 | the tuple of literals evaluates component by component |
| Values.DecomposeMeaning | src/lib.rs:116-124 | `split` returns one value per part, in schema order. Each is the merged value's fields of that part, and each is a value of its part struct |
| Values.SplitAfterNew | src/lib.rs:105-124 | `split(new(p1, …, pN)) == (p1, …, pN)` |
| Values.NewAfterSplit | src/lib.rs:105-124 | `new(split(m)) == m` |
| Grammar.SplitType | src/lib.rs:77 | a field's type is split off the token stream before the first comma outside angle brackets, or at the end. The type and the rest concatenate to the input |
| Grammar.SplitTypeAll | src/lib.rs:77 | the type split off contains no top-level comma |
| Grammar.SplitTypeConcat | src/lib.rs:77 | a type with balanced angle brackets, followed by a comma or by nothing, is split off exactly |
| Grammar.ParseType | src/lib.rs:77 | an accepted `ty` is non-empty, has no top-level comma, and ends at a comma or at the end |
| Grammar.ParseAttrs | src/lib.rs:70 | `#[...]` groups are consumed, each non-empty. What is consumed renders back to the input |
| Grammar.ParseVis | src/lib.rs:71 | a `vis` is empty, `pub`, or `pub(crate / self / super / in path)`, and renders back to the input |
| Grammar.ParseIdent | src/lib.rs:71 | an `ident` is any word but `_` |
| Grammar.Expect | src/lib.rs:74 | a literal token of the pattern is consumed only when it is next |
| Grammar.ParseField | src/lib.rs:76-77 | an accepted field renders back to what it consumed. It is well formed and is followed by a comma or the end |
| Grammar.ParseFields | src/lib.rs:75-78 | one or more comma-separated fields with an optional trailing comma. The brace contents are exactly their rendering |
| Grammar.ParsePart | src/lib.rs:73-79 | an accepted part renders back to what it consumed and is well formed, with at least one field |
| Grammar.ParseParts | src/lib.rs:72-80 | one or more parts, not separated. The brace contents are exactly their rendering |
| Grammar.Parse | src/lib.rs:69-81 | the whole input is exactly the rendering of the accepted schema and its comma layout. The schema has at least one part and at least one field per part |
| Grammar.ParseAttrsRender | src/lib.rs:70 | printed attributes parse back |
| Grammar.ParseVisRender | src/lib.rs:71 | a printed visibility parses back before a name |
| Grammar.ParseTypeRender | src/lib.rs:77 | a printed type parses back before a comma or the end |
| Grammar.ParseFieldRender | src/lib.rs:76-77 | a printed field parses back |
| Grammar.ParseFieldsRender | src/lib.rs:75-78 | printed fields parse back, with or without the trailing comma |
| Grammar.ParsePartRender | src/lib.rs:73-79 | a printed part parses back |
| Grammar.ParsePartsRender | src/lib.rs:72-80 | printed parts parse back with their layouts |
| Grammar.ParseRender | src/lib.rs:69-81 | every printable schema, with any trailing-comma layout, parses back to itself |
| Grammar.CommaBetweenParts | src/lib.rs:72-80 | a comma after a part is rejected at that comma |
| MultiStructs.Invoke | src/lib.rs:68-127 | the macro matches exactly what `Parse` accepts. The result is the expansion of a well-shaped schema that renders to the input |
| MultiStructs.InvokeRender | src/lib.rs:68-127 | invoking the macro on a printed schema expands that schema |
| MultiStructs.InvokeAccepted | src/lib.rs:68-127 | a matched invocation passes the compiler checks iff its field, slot and struct names are unique |
| MultiStructs.PlainFieldOk | src/lib.rs:15-16 | a documented field with a one-word type is well formed |
| MultiStructs.ExampleInvoke | src/lib.rs:8-29 | the documented invocation matches and expands to the `Merged` schema |
| MultiStructs.ExampleExpansion | src/lib.rs:8-29 | it declares `Foo` and `Bar`, and `Merged` has fields `a, b, c, d`. `new(foo: Foo, bar: Bar)` and `split` returns `(Foo, Bar)` |
| MultiStructs.ExampleAccepted | src/lib.rs:8-29 | the documented expansion passes every modelled compiler check |
| MultiStructs.ExampleValues | src/lib.rs:32-38 | `Merged::new(foo, bar)` holds `a: 1, b: 2, c: 3, d: "aaa"`, and `split` returns `(foo, bar)` |
| MultiStructs.TwinsRejected | src/lib.rs:83-94 | two parts declaring the same struct name, with unique fields and slots: the expansion declares that struct twice and is rejected |
| MultiStructs.ClashExpands | src/lib.rs:93-101 | two parts declaring `x`: the macro still matches and expands, the compiler rejects the expansion, and `new` has no value |

## Left out

- Grammar.ParseType: the `ty` fragment is approximated. A type is every token up to the first comma outside `<`…`>`. Rust's type grammar (paths, tuples, `dyn`, `impl`, function types) is not checked, and a `>` inside `->` is counted as closing a bracket.
- Grammar.ParseRender: proved only for schemas whose types balance their angle brackets (`Printable`). A type with an unmatched `<` would swallow the commas that follow it.
- Grammar.ParseVis: accepts `pub(...)` only with `crate`, `self`, `super` or `in path`. Otherwise `pub` alone is taken and the group is left for the next rule, as rustc's `vis` fragment does. The older `crate` visibility is not modelled.
- Grammar.ParseIdent: raw identifiers (`r#name`) and the distinction between identifiers and other keywords are not modelled. Only `_` is refused, and `pub` after an empty visibility is taken by the visibility.
- Values.Compose: ownership and moves are modelled as copies of values. Partial moves and drop order are not modelled.
- Macro hygiene, spans and the exact text of rustc's error messages are not modelled. A parse error carries only the token found.
- Emit.AcceptedIff: covers only the checks that depend on the schema. It does not model a struct name that collides with another item in the surrounding module, whether attributes are meaningful, whether types exist, whether visibilities are legal, or the privacy of fields that `new` and `split` read across modules.
- `#![no_std]`, the `example_generated` feature gate and its module (src/lib.rs:62-65, 129-130) are build configuration and documentation only.
- The example's `println!` and `Debug` derives (src/lib.rs:31-39) are I/O and foreign trait implementations. The derives appear only as attributes that are copied.
- A doc comment `/// text` is modelled as the attribute `#[doc = " text"]` that the macro receives, leading space included. Block doc comments are not modelled.
