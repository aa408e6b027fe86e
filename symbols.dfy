/** Document symbols as the symbol provider reports them, and the flattening
    that picks the function and method symbols out of the symbol tree
    (`findAllFunctions` in src/extension.ts). */
module Symbols {
  import opened Text
  import opened Seqs

  /** `vscode.SymbolKind`. */
  datatype SymbolKind =
    | File | Module | Namespace | Package | Class | Method | Property | Field
    | Constructor | Enum | Interface | Function | Variable | Constant | String
    | Number | Boolean | Array | Object | Key | Null | EnumMember | Struct
    | Event | Operator | TypeParameter

  /** A `vscode.DocumentSymbol`, reduced to what the extension reads: its
      name, its kind, the line its range starts on (0-based) and its
      children. A symbol without children has the empty sequence. */
  datatype Symbol = Symbol(name: string, kind: SymbolKind, startLine: nat, children: seq<Symbol>)

  /** A name the language server gives to an anonymous callback, such as
      `forEach() callback` or `items.map() callback`. */
  predicate IsCallbackName(name: string) {
    Contains(name, " callback")
    || Contains(name, ".reduce()")
    || Contains(name, ".map()")
    || Contains(name, ".filter()")
    || (Contains(name, "()") && Contains(name, "."))
  }

  /** The symbols the function list shows. */
  predicate Qualifies(s: Symbol) {
    (s.kind == Function || s.kind == Method) && !IsCallbackName(s.name)
  }

  /** The `.reduce()`, `.map()` and `.filter()` tests are subsumed by the
      last one: a name is callback-like exactly when it contains ` callback`,
      or contains both `()` and `.`. */
  lemma CallbackNameSimplified(name: string)
    ensures IsCallbackName(name) <==> Contains(name, " callback") || (Contains(name, "()") && Contains(name, "."))
  {
    if Contains(name, ".reduce()") {
      ContainsPiece(name, ".reduce()", "()", 7);
      ContainsPiece(name, ".reduce()", ".", 0);
    }
    if Contains(name, ".map()") {
      ContainsPiece(name, ".map()", "()", 4);
      ContainsPiece(name, ".map()", ".", 0);
    }
    if Contains(name, ".filter()") {
      ContainsPiece(name, ".filter()", "()", 7);
      ContainsPiece(name, ".filter()", ".", 0);
    }
  }

  /** Every symbol of the forest `ss`, each followed by its descendants
      (a depth-first, pre-order walk). */
  function Preorder(ss: seq<Symbol>): seq<Symbol>
    decreases ss
  {
    if ss == [] then []
    else
      var s := ss[|ss| - 1];
      Preorder(ss[..|ss| - 1]) + [s] + Preorder(s.children)
  }

  /** The depth-first walk of `findAllFunctions` with the test for the
      symbols it keeps as a parameter: for each symbol in turn, the symbol
      itself when it is kept, then what the walk finds among its children. */
  function Walk(ss: seq<Symbol>, keep: Symbol -> bool): seq<Symbol>
    decreases ss
  {
    if ss == [] then []
    else
      var s := ss[|ss| - 1];
      Walk(ss[..|ss| - 1], keep) + (if keep(s) then [s] else []) + Walk(s.children, keep)
  }

  /** What `findAllFunctions(ss)` returns. */
  function Functions(ss: seq<Symbol>): seq<Symbol> {
    Walk(ss, Qualifies)
  }

  /** The walk reaches every symbol: the top-level symbols are in the
      pre-order, and so is every child of a symbol in it. */
  lemma {:induction false} PreorderClosed(ss: seq<Symbol>)
    ensures forall x :: x in ss ==> x in Preorder(ss)
    ensures forall x, c :: x in Preorder(ss) && c in x.children ==> c in Preorder(ss)
    decreases ss
  {
    if ss != [] {
      var init, s := ss[..|ss| - 1], ss[|ss| - 1];
      PreorderClosed(init);
      PreorderClosed(s.children);
      assert ss == init + [s];
    }
  }

  /** The walk keeps exactly the kept symbols of the tree, in pre-order. */
  lemma {:induction false} WalkIsPreorderFilter(ss: seq<Symbol>, keep: Symbol -> bool)
    ensures Walk(ss, keep) == Filter(Preorder(ss), keep)
    decreases ss
  {
    if ss != [] {
      var init, s := ss[..|ss| - 1], ss[|ss| - 1];
      WalkIsPreorderFilter(init, keep);
      WalkIsPreorderFilter(s.children, keep);
      FilterConcat(Preorder(init), [s], keep);
      FilterConcat(Preorder(init) + [s], Preorder(s.children), keep);
      assert [s][..0] == [];
    }
  }

  /** `findAllFunctions` keeps exactly the qualifying symbols of the tree, in
      pre-order: every function or method that is not a callback, at any
      depth, below functions and non-functions alike, each before the
      functions nested in it. */
  lemma FunctionsArePreorderFilter(ss: seq<Symbol>)
    ensures Functions(ss) == Filter(Preorder(ss), Qualifies)
  {
    WalkIsPreorderFilter(ss, Qualifies);
  }

  /** The walk of a forest with one more symbol at the end. */
  lemma WalkSnoc(ss: seq<Symbol>, s: Symbol, keep: Symbol -> bool)
    ensures Walk(ss + [s], keep) == Walk(ss, keep) + (if keep(s) then [s] else []) + Walk(s.children, keep)
  {
    assert (ss + [s])[..|ss|] == ss;
  }

  /** The walk of a forest is the walk of its first part followed by the
      walk of the rest. */
  lemma {:induction false} WalkConcat(a: seq<Symbol>, b: seq<Symbol>, keep: Symbol -> bool)
    ensures Walk(a + b, keep) == Walk(a, keep) + Walk(b, keep)
    decreases b
  {
    if b == [] {
      assert a + b == a;
    } else {
      var init, s := b[..|b| - 1], b[|b| - 1];
      var wa, wi, k, c := Walk(a, keep), Walk(init, keep), (if keep(s) then [s] else []), Walk(s.children, keep);
      calc {
        Walk(a + b, keep);
      == { assert a + b == (a + init) + [s]; WalkSnoc(a + init, s, keep); }
        Walk(a + init, keep) + k + c;
      == { WalkConcat(a, init, keep); }
        wa + wi + k + c;
      == { assert wa + wi + k + c == wa + (wi + k + c); }
        wa + (wi + k + c);
      == { assert b == init + [s]; WalkSnoc(init, s, keep); }
        wa + Walk(b, keep);
      }
    }
  }

  /** The walk of two childless symbols that are both kept. */
  lemma WalkOfLeaves(f0: Symbol, f1: Symbol, keep: Symbol -> bool)
    requires keep(f0) && keep(f1) && f0.children == [] && f1.children == []
    ensures Walk([f0, f1], keep) == [f0, f1]
  {
    assert Walk([], keep) == [];
    WalkSnoc([], f0, keep);
    assert [] + [f0] == [f0];
    WalkSnoc([f0], f1, keep);
    assert [f0] + [f1] == [f0, f1];
  }

  /** A qualifying symbol is listed right before the functions nested in it,
      after those of the symbols before it and before those of the symbols
      after it. */
  lemma QualifyingBeforeNested(a: seq<Symbol>, s: Symbol, b: seq<Symbol>)
    requires Qualifies(s)
    ensures Functions(a + [s] + b) == Functions(a) + [s] + Functions(s.children) + Functions(b)
  {
    WalkConcat(a + [s], b, Qualifies);
    WalkSnoc(a, s, Qualifies);
  }

  /** `findAllFunctions`: a loop over the symbols that pushes each qualifying
      symbol and then what the recursive call finds among its children. */
  method FindAllFunctions(symbols: seq<Symbol>) returns (functions: seq<Symbol>)
    ensures functions == Functions(symbols)
    decreases symbols
  {
    functions := [];
    for i := 0 to |symbols|
      invariant functions == Functions(symbols[..i])
    {
      assert symbols[..i + 1] == symbols[..i] + [symbols[i]];
      WalkSnoc(symbols[..i], symbols[i], Qualifies);
      var symbol := symbols[i];
      if symbol.kind == Function || symbol.kind == Method {
        var isCallback := IsCallbackName(symbol.name);
        if !isCallback {
          functions := functions + [symbol];
        }
      }
      assert functions == Functions(symbols[..i]) + (if Qualifies(symbol) then [symbol] else []);
      if |symbol.children| > 0 {
        var nested := FindAllFunctions(symbol.children);
        functions := functions + nested;
      }
    }
    assert symbols[..|symbols|] == symbols;
  }

}
