/** `FunctionProvider`: the function list of the active editor, with its
    focus mode and focus list.

    The host is reduced to inputs: the active editor is an
    `Option<Document>` given to every operation, the symbol provider's answer
    is given as symbols (or their absence, or an exception), and the stored
    focus lists are a map from file URI to the signatures saved for it. */
module Provider {
  import opened Wrappers
  import opened Seqs
  import opened Symbols
  import opened Signatures
  import opened Listing

  /** The signature of a symbol in the editor `ed`, as the key the list
      operations compare. */
  function SignatureIn(ed: Option<Document>): Symbol -> string {
    (x: Symbol) => Signature(ed, x)
  }

  /** The symbols whose signature differs from `sig`. */
  function WithoutSignature(ed: Option<Document>, sig: string): Symbol -> bool {
    (x: Symbol) => Signature(ed, x) != sig
  }

  /** The symbols whose signature is one of `stored`. */
  function HasStoredSignature(ed: Option<Document>, stored: seq<string>): Symbol -> bool {
    (x: Symbol) => Signature(ed, x) in stored
  }

  /** What the symbol provider's command came to: the symbols, possibly
      undefined, or an exception. */
  datatype SymbolFetch = Threw | Returned(symbols: Option<seq<Symbol>>)

  /** The stored focus lists: for each file URI, the signatures saved for
      it. */
  type FocusStore = map<string, seq<string>>

  /** `symbols || []`. */
  function OrEmpty(symbols: Option<seq<Symbol>>): seq<Symbol> {
    if symbols.Some? then symbols.value else []
  }

  /** The focus list after `addToFocus(symbol)`. */
  function FocusAdded(ed: Option<Document>, list: seq<Symbol>, symbol: Symbol): seq<Symbol> {
    if Signature(ed, symbol) in Keys(list, SignatureIn(ed)) then list
    else SortByLine(list + [symbol])
  }

  /** The focus list after `removeFromFocus(symbol)`. */
  function FocusRemoved(ed: Option<Document>, list: seq<Symbol>, symbol: Symbol): seq<Symbol> {
    Filter(list, WithoutSignature(ed, Signature(ed, symbol)))
  }

  /** The focus list after `loadFocusList()`. */
  function LoadedFocus(ed: Option<Document>, fetch: SymbolFetch, store: FocusStore): seq<Symbol> {
    match ed
    case None => []
    case Some(doc) =>
      match fetch
      case Threw => []
      case Returned(symbols) =>
        var stored := if doc.uri in store then store[doc.uri] else [];
        SortByLine(Filter(Functions(OrEmpty(symbols)), HasStoredSignature(ed, stored)))
  }

  /** What `getChildren` lists outside focus mode. */
  function Listed(ed: Option<Document>, symbols: Option<seq<Symbol>>): seq<Symbol> {
    SortByLine(KeepFirst(Functions(OrEmpty(symbols)), SignatureIn(ed)))
  }

  /** The tree data provider: its focus mode and its focus list. */
  class FunctionProvider {
    var focusMode: bool
    var focusList: seq<Symbol>

    /** The focus list is kept sorted by start line. */
    ghost predicate Valid()
      reads this
    {
      SortedByLine(focusList)
    }

    constructor ()
      ensures Valid() && !focusMode && focusList == []
    {
      focusMode := false;
      focusList := [];
    }

    /** `setFocusMode`. */
    method SetFocusMode(enabled: bool)
      requires Valid()
      modifies this
      ensures Valid()
      ensures focusMode == enabled && focusList == old(focusList)
    {
      focusMode := enabled;
    }

    /** `addToFocus`: a symbol whose signature is not yet in the list is
      appended and the list sorted again. */
    method AddToFocus(ed: Option<Document>, functionSymbol: Symbol)
      requires Valid()
      modifies this
      ensures Valid()
      ensures focusList == FocusAdded(ed, old(focusList), functionSymbol) && focusMode == old(focusMode)
    {
      var newSignature := GetSignatureForSymbol(ed, functionSymbol);
      var alreadyExists := newSignature in Keys(focusList, SignatureIn(ed));
      if !alreadyExists {
        focusList := focusList + [functionSymbol];
        SortSorted(focusList);
        focusList := SortByLine(focusList);
      }
    }

    /** `removeFromFocus`: every entry with the symbol's signature goes. */
    method RemoveFromFocus(ed: Option<Document>, functionSymbol: Symbol)
      requires Valid()
      modifies this
      ensures Valid()
      ensures focusList == FocusRemoved(ed, old(focusList), functionSymbol) && focusMode == old(focusMode)
    {
      var newSignature := GetSignatureForSymbol(ed, functionSymbol);
      FilterSorted(focusList, WithoutSignature(ed, newSignature));
      focusList := Filter(focusList, WithoutSignature(ed, newSignature));
    }

    /** `loadFocusList`: the current functions whose signature was stored for
      the file, sorted by start line; nothing without an editor or when the
      symbol provider fails. */
    method LoadFocusList(ed: Option<Document>, fetch: SymbolFetch, store: FocusStore)
      requires Valid()
      modifies this
      ensures Valid()
      ensures focusList == LoadedFocus(ed, fetch, store) && focusMode == old(focusMode)
    {
      if ed.None? {
        focusList := [];
        return;
      }
      var fileKey := ed.value.uri;
      match fetch
      case Threw =>
        focusList := [];
      case Returned(symbols) =>
        var currentFunctions := FindAllFunctions(OrEmpty(symbols));
        var storedSignatures := if fileKey in store then store[fileKey] else [];
        var kept := Filter(currentFunctions, HasStoredSignature(ed, storedSignatures));
        SortSorted(kept);
        focusList := SortByLine(kept);
    }

    /** `getChildren`: nothing without an editor or without symbols;
        otherwise the focus list in focus mode, and outside it the functions
        of the symbol tree, without repeated signatures, sorted by start
        line. The de-duplication runs in both modes. */
    method GetChildren(ed: Option<Document>, symbols: Option<seq<Symbol>>) returns (r: seq<Symbol>)
      ensures ed.None? || symbols.None? ==> r == []
      ensures ed.Some? && symbols.Some? && focusMode ==> r == focusList
      ensures ed.Some? && symbols.Some? && !focusMode ==> r == Listed(ed, symbols)
    {
      if ed.None? || symbols.None? {
        return [];
      }
      var allFunctionsWithDuplicates := FindAllFunctions(symbols.value);
      var allFunctions: seq<Symbol> := [];
      for i := 0 to |allFunctionsWithDuplicates|
        invariant allFunctions == KeepFirst(allFunctionsWithDuplicates[..i], SignatureIn(ed))
      {
        assert allFunctionsWithDuplicates[..i + 1][..i] == allFunctionsWithDuplicates[..i];
        var func := allFunctionsWithDuplicates[i];
        var signature := GetSignatureForSymbol(ed, func);
        var alreadyExists := signature in Keys(allFunctions, SignatureIn(ed));
        if !alreadyExists {
          allFunctions := allFunctions + [func];
        }
      }
      if focusMode {
        return if |focusList| > 0 then focusList else [];
      }
      assert allFunctionsWithDuplicates[..|allFunctionsWithDuplicates|] == allFunctionsWithDuplicates;
      r := SortByLine(allFunctions);
    }
  }

  /** Outside focus mode the list is sorted by start line and has each
      signature once. */
  lemma ListedSortedDistinct(ed: Option<Document>, symbols: Option<seq<Symbol>>)
    ensures SortedByLine(Listed(ed, symbols))
    ensures DistinctKeys(Listed(ed, symbols), SignatureIn(ed))
  {
    var kept := KeepFirst(Functions(OrEmpty(symbols)), SignatureIn(ed));
    SortSorted(kept);
    KeepFirstDistinct(Functions(OrEmpty(symbols)), SignatureIn(ed));
    SortKeys(kept, SignatureIn(ed));
  }

  /** Outside focus mode the list shows exactly the functions of the tree
      that come first with their signature in the tree's pre-order. */
  lemma ListedFirsts(ed: Option<Document>, symbols: Option<seq<Symbol>>, x: Symbol)
    ensures x in Listed(ed, symbols) <==> IsFirstOfKey(Functions(OrEmpty(symbols)), SignatureIn(ed), x)
  {
    var fs, sig := Functions(OrEmpty(symbols)), SignatureIn(ed);
    SortedFirsts(fs, sig, x);
    assert Listed(ed, symbols) == SortByLine(KeepFirst(fs, sig));
  }

  /** Outside focus mode no signature of the tree's functions is lost. */
  lemma ListedKeys(ed: Option<Document>, symbols: Option<seq<Symbol>>, k: string)
    ensures k in Keys(Listed(ed, symbols), SignatureIn(ed)) <==> k in Keys(Functions(OrEmpty(symbols)), SignatureIn(ed))
  {
    var fs := Functions(OrEmpty(symbols));
    var sig := SignatureIn(ed);
    KeepFirstKeys(fs, sig);
    SortKeys(KeepFirst(fs, sig), sig);
    assert k in Keys(Listed(ed, symbols), sig) <==> k in multiset(Keys(Listed(ed, symbols), sig));
    assert k in Keys(KeepFirst(fs, sig), sig) <==> k in multiset(Keys(KeepFirst(fs, sig), sig));
  }

  /** Adding keeps the list sorted. */
  lemma AddedSorted(ed: Option<Document>, list: seq<Symbol>, symbol: Symbol)
    requires SortedByLine(list)
    ensures SortedByLine(FocusAdded(ed, list, symbol))
  {
    SortSorted(list + [symbol]);
  }

  /** After adding, an entry with the symbol's signature is present; the
      symbol itself is added exactly when no entry had its signature, and
      nothing else is added or lost. */
  lemma AddedContents(ed: Option<Document>, list: seq<Symbol>, symbol: Symbol)
    ensures Signature(ed, symbol) in Keys(FocusAdded(ed, list, symbol), SignatureIn(ed))
    ensures multiset(FocusAdded(ed, list, symbol))
            == if Signature(ed, symbol) in Keys(list, SignatureIn(ed)) then multiset(list)
               else multiset(list) + multiset{symbol}
  {
    var sig := SignatureIn(ed);
    if Signature(ed, symbol) !in Keys(list, sig) {
      var l := list + [symbol];
      SortPermutes(l);
      SortKeys(l, sig);
      KeysAppend(list, symbol, sig);
      assert Signature(ed, symbol) in multiset(Keys(SortByLine(l), sig));
    }
  }

  /** Adding keeps signatures distinct. */
  lemma AddedDistinct(ed: Option<Document>, list: seq<Symbol>, symbol: Symbol)
    requires DistinctKeys(list, SignatureIn(ed))
    ensures DistinctKeys(FocusAdded(ed, list, symbol), SignatureIn(ed))
  {
    var sig := SignatureIn(ed);
    if Signature(ed, symbol) !in Keys(list, sig) {
      var l := list + [symbol];
      SortKeys(l, sig);
      KeysAppend(list, symbol, sig);
      assert multiset(Keys(l, sig)) == multiset(Keys(list, sig)) + multiset{Signature(ed, symbol)};
    }
  }

  /** Adding the same symbol twice is adding it once. */
  lemma AddedIdempotent(ed: Option<Document>, list: seq<Symbol>, symbol: Symbol)
    ensures FocusAdded(ed, FocusAdded(ed, list, symbol), symbol) == FocusAdded(ed, list, symbol)
  {
    AddedContents(ed, list, symbol);
  }

  /** After removing, no entry has the symbol's signature, every entry with
      another signature is still there, and the order is kept. */
  lemma RemovedContents(ed: Option<Document>, list: seq<Symbol>, symbol: Symbol)
    ensures Signature(ed, symbol) !in Keys(FocusRemoved(ed, list, symbol), SignatureIn(ed))
    ensures forall y :: y in list && Signature(ed, y) != Signature(ed, symbol) ==> y in FocusRemoved(ed, list, symbol)
    ensures IsSubsequence(FocusRemoved(ed, list, symbol), list)
  {
    var r := FocusRemoved(ed, list, symbol);
    FilterIsSubsequence(list, WithoutSignature(ed, Signature(ed, symbol)));
    forall i | 0 <= i < |r| ensures Keys(r, SignatureIn(ed))[i] != Signature(ed, symbol) {
      assert r[i] in r;
    }
  }

  /** Removing keeps the list sorted and its signatures distinct. */
  lemma RemovedSortedDistinct(ed: Option<Document>, list: seq<Symbol>, symbol: Symbol)
    requires SortedByLine(list) && DistinctKeys(list, SignatureIn(ed))
    ensures SortedByLine(FocusRemoved(ed, list, symbol))
    ensures DistinctKeys(FocusRemoved(ed, list, symbol), SignatureIn(ed))
  {
    var p := WithoutSignature(ed, Signature(ed, symbol));
    FilterSorted(list, p);
    FilterKeys(list, p, SignatureIn(ed));
    forall k ensures multiset(Keys(Filter(list, p), SignatureIn(ed)))[k] <= 1 {
      assert multiset(Keys(list, SignatureIn(ed)))[k] <= 1;
    }
  }

  /** Removing a symbol just added restores a sorted list. */
  lemma RemoveUndoesAdd(ed: Option<Document>, list: seq<Symbol>, symbol: Symbol)
    requires SortedByLine(list) && Signature(ed, symbol) !in Keys(list, SignatureIn(ed))
    ensures FocusRemoved(ed, FocusAdded(ed, list, symbol), symbol) == list
  {
    var p := WithoutSignature(ed, Signature(ed, symbol));
    forall y | y in list ensures p(y) {
      var i :| 0 <= i < |list| && list[i] == y;
      assert Keys(list, SignatureIn(ed))[i] == Signature(ed, y);
    }
    FilterUndoesInsert(list, symbol, p);
  }

  /** Loading keeps the list sorted and holds exactly the functions of the
      tree whose signature was stored for the file. */
  lemma LoadedContents(doc: Document, symbols: Option<seq<Symbol>>, store: FocusStore, x: Symbol)
    ensures SortedByLine(LoadedFocus(Some(doc), Returned(symbols), store))
    ensures x in LoadedFocus(Some(doc), Returned(symbols), store) <==>
              x in Preorder(OrEmpty(symbols)) && Qualifies(x)
              && Signature(Some(doc), x) in (if doc.uri in store then store[doc.uri] else [])
  {
    var stored := if doc.uri in store then store[doc.uri] else [];
    var kept := Filter(Functions(OrEmpty(symbols)), HasStoredSignature(Some(doc), stored));
    SortSorted(kept);
    InSorted(kept, x);
    FunctionsArePreorderFilter(OrEmpty(symbols));
  }

  /** Loading does not deduplicate: two functions with one stored signature
      are both loaded. */
  lemma LoadedMayRepeatSignature(doc: Document, f0: Symbol, f1: Symbol, stored: seq<string>)
    requires Qualifies(f0) && Qualifies(f1) && f0.children == [] && f1.children == []
    requires f0.startLine <= f1.startLine
    requires Signature(Some(doc), f0) == Signature(Some(doc), f1) && Signature(Some(doc), f0) in stored
    ensures LoadedFocus(Some(doc), Returned(Some([f0, f1])), map[doc.uri := stored]) == [f0, f1]
  {
    LoadedPair(doc, f0, f1, stored);
  }

  /** Two childless functions in line order, both with a stored signature,
      are loaded as they are. */
  lemma LoadedPair(doc: Document, f0: Symbol, f1: Symbol, stored: seq<string>)
    requires Qualifies(f0) && Qualifies(f1) && f0.children == [] && f1.children == []
    requires f0.startLine <= f1.startLine
    requires HasStoredSignature(Some(doc), stored)(f0) && HasStoredSignature(Some(doc), stored)(f1)
    ensures LoadedFocus(Some(doc), Returned(Some([f0, f1])), map[doc.uri := stored]) == [f0, f1]
  {
    WalkOfLeaves(f0, f1, Qualifies);
    KeepPair(f0, f1, HasStoredSignature(Some(doc), stored));
  }

}
