/**
 * The input pattern of `multi_structs!`, read as a grammar over token trees:
 *
 *   whole := attr* vis "struct" ident { part+ }
 *   part  := attr* vis ident ":" "struct" ident { field ("," field)* ","? }
 *   field := attr* vis ident ":" ty
 *   attr  := "#" [ tt+ ]
 *
 * `Render` prints a schema as the tokens of a macro invocation (with or
 * without a trailing comma after each part's last field), and `Parse` is the
 * matcher. The macro reports every mismatch the same way: no rule expected the
 * token found, or the invocation ended too early.
 *
 * Each renderer takes the tokens that follow what it prints, so a rendering
 * reads in the same order as the matcher consumes it.
 */
module Grammar {
  import opened Wrappers
  import opened Schema

  /** `found == None` is rustc's "unexpected end of macro invocation". */
  datatype ParseError = NoRulesExpected(found: Option<TokenTree>)

  datatype Parsed<T> = Parsed(value: T, rest: Tokens)

  function Fail<T>(ts: Tokens): Result<T, ParseError> {
    Err(NoRulesExpected(if ts.Nil? then None else Some(ts.head)))
  }

  predicate StartsWith(ts: Tokens, t: TokenTree) {
    ts.Cons? && ts.head == t
  }

  function Length(ts: Tokens): nat {
    if ts.Nil? then 0 else 1 + Length(ts.tail)
  }

  function Concat(a: Tokens, b: Tokens): Tokens {
    if a.Nil? then b else Cons(a.head, Concat(a.tail, b))
  }

  /* ---------- Rendering ---------- */

  function RenderAttrs(attrs: seq<Attr>, rest: Tokens): Tokens {
    if attrs == [] then rest else Cons(Punct('#'), Cons(Group(Bracket, attrs[0].tokens), RenderAttrs(attrs[1..], rest)))
  }

  function RenderVis(v: Visibility, rest: Tokens): Tokens {
    match v
    case Private => rest
    case Pub => Cons(Word("pub"), rest)
    case Restricted(scope) => Cons(Word("pub"), Cons(Group(Paren, scope), rest))
  }

  function RenderField(f: Field, rest: Tokens): Tokens {
    RenderAttrs(f.attrs, RenderVis(f.vis, Cons(Word(f.name), Cons(Punct(':'), Concat(f.ty, rest)))))
  }

  /** Fields separated by commas, with a comma after the last one iff `trailing`. */
  function RenderFields(fs: seq<Field>, trailing: bool): Tokens {
    if fs == [] then Nil
    else if |fs| == 1 then RenderField(fs[0], if trailing then Cons(Punct(','), Nil) else Nil)
    else RenderField(fs[0], Cons(Punct(','), RenderFields(fs[1..], trailing)))
  }

  function RenderPart(p: Part, trailing: bool, rest: Tokens): Tokens {
    RenderAttrs(p.attrs, RenderVis(p.vis,
      Cons(Word(p.slot), Cons(Punct(':'), Cons(Word("struct"), Cons(Word(p.typeName),
        Cons(Group(Brace, RenderFields(p.fields, trailing)), rest)))))))
  }

  /** Parts follow one another with no separator. */
  function RenderParts(ps: seq<Part>, trailing: seq<bool>): Tokens
    requires |trailing| == |ps|
  {
    if ps == [] then Nil else RenderPart(ps[0], trailing[0], RenderParts(ps[1..], trailing[1..]))
  }

  function Render(w: Whole, trailing: seq<bool>): Tokens
    requires |trailing| == |w.parts|
  {
    RenderAttrs(w.attrs, RenderVis(w.vis,
      Cons(Word("struct"), Cons(Word(w.name), Cons(Group(Brace, RenderParts(w.parts, trailing)), Nil)))))
  }

  /* ---------- What the pattern admits ---------- */

  predicate AttrsOk(attrs: seq<Attr>) {
    forall i | 0 <= i < |attrs| :: attrs[i].tokens != Nil
  }

  /** `pub(crate)`, `pub(self)`, `pub(super)` or `pub(in path)`. */
  predicate ScopeOk(scope: Tokens) {
    || scope == Cons(Word("crate"), Nil) || scope == Cons(Word("self"), Nil) || scope == Cons(Word("super"), Nil)
    || (StartsWith(scope, Word("in")) && scope.tail != Nil)
  }

  predicate VisOk(v: Visibility) {
    v.Restricted? ==> ScopeOk(v.scope)
  }

  /** An `ident` fragment is any word but `_`; after an empty visibility it cannot be `pub`. */
  predicate NameOk(v: Visibility, n: Ident) {
    n != "_" && (v.Private? ==> n != "pub")
  }

  /** Angle-bracket depth after one more token; a stray `>` does not go below zero. */
  function Step(d: nat, t: TokenTree): nat {
    if t == Punct('<') then d + 1 else if t == Punct('>') && d > 0 then d - 1 else d
  }

  /**
   * Splits `ts` where a field's type ends, starting at angle-bracket depth `d`:
   * before the first comma outside angle brackets, or at the end.
   */
  function SplitType(ts: Tokens, d: nat): (r: (Ty, Tokens))
    ensures Concat(r.0, r.1) == ts
    ensures r.1 == Nil || r.1.head == Punct(',')
    ensures Length(r.1) <= Length(ts)
  {
    if ts.Nil? then (Nil, Nil)
    else if ts.head == Punct(',') && d == 0 then (Nil, ts)
    else
      var r := SplitType(ts.tail, Step(d, ts.head));
      (Cons(ts.head, r.0), r.1)
  }

  /** The angle-bracket depth after all of `ts`, starting at depth `d`. */
  function DepthAfter(ts: Tokens, d: nat): nat {
    if ts.Nil? then d else DepthAfter(ts.tail, Step(d, ts.head))
  }

  /** A type is a non-empty token sequence with no comma outside angle brackets. */
  predicate TypeOk(ty: Ty) {
    ty != Nil && SplitType(ty, 0).1 == Nil
  }

  predicate FieldOk(f: Field) {
    AttrsOk(f.attrs) && VisOk(f.vis) && NameOk(f.vis, f.name) && TypeOk(f.ty)
  }

  predicate PartOk(p: Part) {
    && AttrsOk(p.attrs) && VisOk(p.vis) && NameOk(p.vis, p.slot) && p.typeName != "_"
    && |p.fields| > 0
    && forall j | 0 <= j < |p.fields| :: FieldOk(p.fields[j])
  }

  /** Everything the matcher guarantees of a schema it accepts. */
  predicate WholeOk(w: Whole) {
    && AttrsOk(w.attrs) && VisOk(w.vis) && w.name != "_"
    && |w.parts| > 0
    && forall i | 0 <= i < |w.parts| :: PartOk(w.parts[i])
  }

  /** Schemas whose rendering parses back: every type also closes its angle brackets. */
  predicate Printable(w: Whole) {
    && WholeOk(w)
    && forall i, j | 0 <= i < |w.parts| && 0 <= j < |w.parts[i].fields| :: DepthAfter(w.parts[i].fields[j].ty, 0) == 0
  }

  lemma RenderFieldsCons(f: Field, more: seq<Field>, trailing: bool)
    requires more != []
    ensures RenderFields([f] + more, trailing) == RenderField(f, Cons(Punct(','), RenderFields(more, trailing)))
  {
    assert ([f] + more)[1..] == more;
  }

  lemma RenderPartsCons(p: Part, trailing: bool, ps: seq<Part>, tcs: seq<bool>)
    requires |tcs| == |ps|
    ensures RenderParts([p] + ps, [trailing] + tcs) == RenderPart(p, trailing, RenderParts(ps, tcs))
  {
    assert ([p] + ps)[1..] == ps && ([trailing] + tcs)[1..] == tcs;
  }

  /* ---------- Matching ---------- */

  /** Splitting the type again, on its own, takes all of it. */
  lemma {:induction false} SplitTypeAll(ts: Tokens, d: nat)
    ensures SplitType(SplitType(ts, d).0, d) == (SplitType(ts, d).0, Nil)
  {
    if ts.Cons? && !(ts.head == Punct(',') && d == 0) {
      SplitTypeAll(ts.tail, Step(d, ts.head));
    }
  }

  /** A type that closes its angle brackets, followed by a comma or nothing, splits off exactly. */
  lemma {:induction false} SplitTypeConcat(ty: Ty, rest: Tokens, d: nat)
    requires SplitType(ty, d).1 == Nil && DepthAfter(ty, d) == 0
    requires rest == Nil || rest.head == Punct(',')
    ensures SplitType(Concat(ty, rest), d) == (ty, rest)
  {
    if ty.Cons? {
      SplitTypeConcat(ty.tail, rest, Step(d, ty.head));
    }
  }

  function ParseType(ts: Tokens): (r: Result<Parsed<Ty>, ParseError>)
    ensures r.Ok? ==> Concat(r.value.value, r.value.rest) == ts && TypeOk(r.value.value)
    ensures r.Ok? ==> r.value.rest == Nil || r.value.rest.head == Punct(',')
    ensures r.Ok? ==> Length(r.value.rest) <= Length(ts)
  {
    var s := SplitType(ts, 0);
    if s.0 == Nil then Fail(ts)
    else
      SplitTypeAll(ts, 0);
      Ok(Parsed(s.0, s.1))
  }

  function ParseAttrs(ts: Tokens): (r: Result<Parsed<seq<Attr>>, ParseError>)
    ensures r.Ok? ==> RenderAttrs(r.value.value, r.value.rest) == ts
    ensures r.Ok? ==> AttrsOk(r.value.value) && !StartsWith(r.value.rest, Punct('#'))
    ensures r.Ok? ==> Length(r.value.rest) <= Length(ts)
  {
    if StartsWith(ts, Punct('#')) then
      if ts.tail.Cons? && ts.tail.head.Group? && ts.tail.head.delim == Bracket && ts.tail.head.body != Nil then
        var p :- ParseAttrs(ts.tail.tail);
        var attrs := [Attr(ts.tail.head.body)] + p.value;
        assert attrs[1..] == p.value;
        Ok(Parsed(attrs, p.rest))
      else
        Fail(ts.tail)
    else
      Ok(Parsed([], ts))
  }

  function ParseVis(ts: Tokens): (r: Parsed<Visibility>)
    ensures RenderVis(r.value, r.rest) == ts && VisOk(r.value)
    ensures r.value.Private? ==> !StartsWith(r.rest, Word("pub"))
    ensures Length(r.rest) <= Length(ts)
  {
    if StartsWith(ts, Word("pub")) then
      if ts.tail.Cons? && ts.tail.head.Group? && ts.tail.head.delim == Paren && ScopeOk(ts.tail.head.body) then
        Parsed(Restricted(ts.tail.head.body), ts.tail.tail)
      else
        Parsed(Pub, ts.tail)
    else
      Parsed(Private, ts)
  }

  function ParseIdent(ts: Tokens): (r: Result<Parsed<Ident>, ParseError>)
    ensures r.Ok? ==> Cons(Word(r.value.value), r.value.rest) == ts && r.value.value != "_"
    ensures r.Ok? ==> Length(r.value.rest) < Length(ts)
  {
    if ts.Cons? && ts.head.Word? && ts.head.text != "_" then Ok(Parsed(ts.head.text, ts.tail)) else Fail(ts)
  }

  function Expect(ts: Tokens, t: TokenTree): (r: Result<Tokens, ParseError>)
    ensures r.Ok? ==> Cons(t, r.value) == ts && Length(r.value) < Length(ts)
  {
    if StartsWith(ts, t) then Ok(ts.tail) else Fail(ts)
  }

  function ParseField(ts: Tokens): (r: Result<Parsed<Field>, ParseError>)
    ensures r.Ok? ==> RenderField(r.value.value, r.value.rest) == ts && FieldOk(r.value.value)
    ensures r.Ok? ==> r.value.rest == Nil || r.value.rest.head == Punct(',')
    ensures r.Ok? ==> Length(r.value.rest) < Length(ts)
  {
    var a :- ParseAttrs(ts);
    var v := ParseVis(a.rest);
    var n :- ParseIdent(v.rest);
    var afterColon :- Expect(n.rest, Punct(':'));
    var t :- ParseType(afterColon);
    Ok(Parsed(Field(a.value, v.value, n.value, t.value), t.rest))
  }

  /** The contents of a part's braces: one or more fields, comma-separated, optional trailing comma. */
  function ParseFields(ts: Tokens): (r: Result<(seq<Field>, bool), ParseError>)
    ensures r.Ok? ==> RenderFields(r.value.0, r.value.1) == ts
    ensures r.Ok? ==> |r.value.0| > 0 && forall j | 0 <= j < |r.value.0| :: FieldOk(r.value.0[j])
    decreases Length(ts)
  {
    var f :- ParseField(ts);
    if f.rest.Nil? then
      Ok(([f.value], false))
    else if f.rest.head != Punct(',') then
      Fail(f.rest)
    else if f.rest.tail.Nil? then
      Ok(([f.value], true))
    else
      var more :- ParseFields(f.rest.tail);
      RenderFieldsCons(f.value, more.0, more.1);
      Ok(([f.value] + more.0, more.1))
  }

  function ParsePart(ts: Tokens): (r: Result<Parsed<(Part, bool)>, ParseError>)
    ensures r.Ok? ==> RenderPart(r.value.value.0, r.value.value.1, r.value.rest) == ts
    ensures r.Ok? ==> PartOk(r.value.value.0)
    ensures r.Ok? ==> Length(r.value.rest) < Length(ts)
  {
    var a :- ParseAttrs(ts);
    var v := ParseVis(a.rest);
    var slot :- ParseIdent(v.rest);
    var afterColon :- Expect(slot.rest, Punct(':'));
    var afterStruct :- Expect(afterColon, Word("struct"));
    var sub :- ParseIdent(afterStruct);
    if sub.rest.Cons? && sub.rest.head.Group? && sub.rest.head.delim == Brace then
      var fs :- ParseFields(sub.rest.head.body);
      Ok(Parsed((Part(a.value, v.value, slot.value, sub.value, fs.0), fs.1), sub.rest.tail))
    else
      Fail(sub.rest)
  }

  /** The contents of the merged struct's braces: one or more parts, not separated. */
  function ParseParts(ts: Tokens): (r: Result<(seq<Part>, seq<bool>), ParseError>)
    ensures r.Ok? ==> |r.value.1| == |r.value.0| && RenderParts(r.value.0, r.value.1) == ts
    ensures r.Ok? ==> |r.value.0| > 0 && forall i | 0 <= i < |r.value.0| :: PartOk(r.value.0[i])
    decreases Length(ts)
  {
    var p :- ParsePart(ts);
    if p.rest.Nil? then
      Ok(([p.value.0], [p.value.1]))
    else
      var more :- ParseParts(p.rest);
      RenderPartsCons(p.value.0, p.value.1, more.0, more.1);
      Ok(([p.value.0] + more.0, [p.value.1] + more.1))
  }

  /**
   * The matcher: a schema and the trailing-comma layout of each part, or the
   * token at which no rule matched. What it accepts is exactly the rendering
   * of what it returns, and the schema has the pattern's shape.
   */
  function Parse(ts: Tokens): (r: Result<(Whole, seq<bool>), ParseError>)
    ensures r.Ok? ==> |r.value.1| == |r.value.0.parts| && Render(r.value.0, r.value.1) == ts
    ensures r.Ok? ==> WholeOk(r.value.0) && Shape(r.value.0)
  {
    var a :- ParseAttrs(ts);
    var v := ParseVis(a.rest);
    var afterStruct :- Expect(v.rest, Word("struct"));
    var n :- ParseIdent(afterStruct);
    if n.rest.Nil? || !n.rest.head.Group? || n.rest.head.delim != Brace then
      Fail(n.rest)
    else if n.rest.tail.Cons? then
      Fail(n.rest.tail)
    else
      var ps :- ParseParts(n.rest.head.body);
      Ok((Whole(a.value, v.value, n.value, ps.0), ps.1))
  }

  /* ---------- Rendering, then matching, gives the schema back ---------- */

  lemma {:induction false} ParseAttrsRender(attrs: seq<Attr>, rest: Tokens)
    requires AttrsOk(attrs) && !StartsWith(rest, Punct('#'))
    ensures ParseAttrs(RenderAttrs(attrs, rest)) == Ok(Parsed(attrs, rest))
  {
    if attrs != [] {
      ParseAttrsRender(attrs[1..], rest);
      assert [attrs[0]] + attrs[1..] == attrs;
    }
  }

  lemma ParseVisRender(v: Visibility, rest: Tokens)
    requires VisOk(v) && rest.Cons? && rest.head.Word? && (v.Private? ==> rest.head != Word("pub"))
    ensures ParseVis(RenderVis(v, rest)) == Parsed(v, rest)
  {
  }

  lemma ParseTypeRender(ty: Ty, rest: Tokens)
    requires TypeOk(ty) && DepthAfter(ty, 0) == 0 && (rest == Nil || rest.head == Punct(','))
    ensures ParseType(Concat(ty, rest)) == Ok(Parsed(ty, rest))
  {
    SplitTypeConcat(ty, rest, 0);
  }

  lemma ParseFieldRender(f: Field, rest: Tokens)
    requires FieldOk(f) && DepthAfter(f.ty, 0) == 0 && (rest == Nil || rest.head == Punct(','))
    ensures ParseField(RenderField(f, rest)) == Ok(Parsed(f, rest))
  {
    var afterVis := Cons(Word(f.name), Cons(Punct(':'), Concat(f.ty, rest)));
    ParseAttrsRender(f.attrs, RenderVis(f.vis, afterVis));
    ParseVisRender(f.vis, afterVis);
    ParseTypeRender(f.ty, rest);
  }

  lemma {:induction false} ParseFieldsRender(fs: seq<Field>, trailing: bool)
    requires |fs| > 0 && forall j | 0 <= j < |fs| :: FieldOk(fs[j]) && DepthAfter(fs[j].ty, 0) == 0
    ensures ParseFields(RenderFields(fs, trailing)) == Ok((fs, trailing))
  {
    if |fs| == 1 {
      ParseFieldRender(fs[0], if trailing then Cons(Punct(','), Nil) else Nil);
      assert [fs[0]] == fs;
    } else {
      ParseFieldRender(fs[0], Cons(Punct(','), RenderFields(fs[1..], trailing)));
      ParseFieldsRender(fs[1..], trailing);
      assert [fs[0]] + fs[1..] == fs;
    }
  }

  lemma ParsePartRender(p: Part, trailing: bool, rest: Tokens)
    requires PartOk(p) && forall j | 0 <= j < |p.fields| :: DepthAfter(p.fields[j].ty, 0) == 0
    ensures ParsePart(RenderPart(p, trailing, rest)) == Ok(Parsed((p, trailing), rest))
  {
    var afterVis := Cons(Word(p.slot), Cons(Punct(':'), Cons(Word("struct"), Cons(Word(p.typeName),
      Cons(Group(Brace, RenderFields(p.fields, trailing)), rest)))));
    ParseAttrsRender(p.attrs, RenderVis(p.vis, afterVis));
    ParseVisRender(p.vis, afterVis);
    assert ParseIdent(afterVis) == Ok(Parsed(p.slot, afterVis.tail));
    ParseFieldsRender(p.fields, trailing);
    assert ParseIdent(afterVis.tail.tail.tail) == Ok(Parsed(p.typeName, afterVis.tail.tail.tail.tail));
  }

  lemma {:induction false} ParsePartsRender(ps: seq<Part>, trailing: seq<bool>)
    requires |ps| > 0 && |trailing| == |ps|
    requires forall i | 0 <= i < |ps| :: PartOk(ps[i])
    requires forall i, j | 0 <= i < |ps| && 0 <= j < |ps[i].fields| :: DepthAfter(ps[i].fields[j].ty, 0) == 0
    ensures ParseParts(RenderParts(ps, trailing)) == Ok((ps, trailing))
  {
    var tail := RenderParts(ps[1..], trailing[1..]);
    ParsePartRender(ps[0], trailing[0], tail);
    if |ps| == 1 {
      assert [ps[0]] == ps && [trailing[0]] == trailing;
    } else {
      ParsePartsRender(ps[1..], trailing[1..]);
      assert [ps[0]] + ps[1..] == ps && [trailing[0]] + trailing[1..] == trailing;
    }
  }

  /**
   * Matching a rendered schema gives that schema and its layout back; in
   * particular the trailing comma after a part's last field is optional.
   */
  lemma ParseRender(w: Whole, trailing: seq<bool>)
    requires Printable(w) && |trailing| == |w.parts|
    ensures Parse(Render(w, trailing)) == Ok((w, trailing))
  {
    var afterVis := Cons(Word("struct"), Cons(Word(w.name), Cons(Group(Brace, RenderParts(w.parts, trailing)), Nil)));
    ParseAttrsRender(w.attrs, RenderVis(w.vis, afterVis));
    ParseVisRender(w.vis, afterVis);
    ParsePartsRender(w.parts, trailing);
  }

  /** Parts are not separated by commas: a comma after a part is rejected. */
  lemma CommaBetweenParts(p: Part, trailing: bool, rest: Tokens)
    requires PartOk(p) && forall j | 0 <= j < |p.fields| :: DepthAfter(p.fields[j].ty, 0) == 0
    ensures ParseParts(RenderPart(p, trailing, Cons(Punct(','), rest))) == Err(NoRulesExpected(Some(Punct(','))))
  {
    ParsePartRender(p, trailing, Cons(Punct(','), rest));
  }
}
