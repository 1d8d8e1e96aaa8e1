/** Assembly symbols and the table that interns them by name
    (Symbol.cs, SymbolTable.cs). */
module Symbols {
  import opened Wrappers

  datatype SymbolType = Normal | Import | Export

  /** An immutable symbol: its ordinal index, its name and how it is linked. */
  datatype Symbol = Symbol(index: int, name: string, symbolType: SymbolType)
  {
    predicate Exported()
    {
      symbolType == Export
    }

    predicate Imported()
    {
      symbolType == Import
    }

    /** `Symbol.Export()`: a new symbol of the same index and name, linked as Export. */
    function AsExport(): (s: Symbol)
      ensures s.index == index && s.name == name
      ensures s.Exported() && !s.Imported()
    {
      Symbol(index, name, Export)
    }

    /** `Symbol.Import()`: a new symbol of the same index and name, linked as Import. */
    function AsImport(): (s: Symbol)
      ensures s.index == index && s.name == name
      ensures s.Imported() && !s.Exported()
    {
      Symbol(index, name, Import)
    }

    /** `Equals(Symbol other)`; `None` stands for a null argument. */
    function Equals(other: Option<Symbol>): (r: bool)
      ensures r <==> other == Some(this)
    {
      other.Some? && name == other.value.name && index == other.value.index
      && symbolType == other.value.symbolType
    }
  }

  /** `new Symbol(index, name)`: the link type defaults to Normal. */
  function NewSymbol(index: int, name: string): (s: Symbol)
    ensures s.index == index && s.name == name
    ensures !s.Exported() && !s.Imported()
  {
    Symbol(index, name, Normal)
  }

  /** `operator ==` on symbols: null-safe, and otherwise `Equals`. */
  function OperatorEquals(a: Option<Symbol>, b: Option<Symbol>): (r: bool)
    ensures r <==> a == b
  {
    match a
    case None => b.None?
    case Some(s) => s.Equals(b)
  }

  /** A symbol is never both exported and imported. */
  lemma ExportImportExclusive(s: Symbol)
    ensures !(s.Exported() && s.Imported())
  {
  }

  // ---- the table as a value: what each operation does to the dictionary ----

  type Store = map<string, Symbol>

  /** Every symbol is stored under its own name: Update keys by `symbol.Name`,
      so every table reached through its methods has this shape. */
  ghost predicate WellKeyed(store: Store)
  {
    forall k :: k in store ==> store[k].name == k
  }

  /** `Resolve(name)`: the stored symbol, or a new Normal one whose index is
      the number of names already stored. */
  function ResolveIn(store: Store, name: string): (r: (Symbol, Store))
    ensures name in store ==> r == (store[name], store)
    ensures name !in store ==>
      (r.0 == NewSymbol(|store|, name) && r.1 == store[name := r.0] && |r.1| == |store| + 1)
    ensures name in r.1 && r.1[name] == r.0
    ensures WellKeyed(store) ==> r.0.name == name && WellKeyed(r.1)
  {
    if name in store then (store[name], store)
    else
      var s := NewSymbol(|store|, name);
      (s, store[name := s])
  }

  /** `Export(name)`: resolve, then store the exported form unless it already is. */
  function ExportIn(store: Store, name: string): (r: (Symbol, Store))
    ensures r.0.Exported() && r.0.index == ResolveIn(store, name).0.index
    ensures WellKeyed(store) ==> r.0.name == name && name in r.1 && r.1[name] == r.0 && WellKeyed(r.1)
  {
    var (s, st) := ResolveIn(store, name);
    if !s.Exported() then (s.AsExport(), st[s.name := s.AsExport()]) else (s, st)
  }

  /** `Import(name)`: resolve, then store the imported form unless it already is. */
  function ImportIn(store: Store, name: string): (r: (Symbol, Store))
    ensures r.0.Imported() && r.0.index == ResolveIn(store, name).0.index
    ensures WellKeyed(store) ==> r.0.name == name && name in r.1 && r.1[name] == r.0 && WellKeyed(r.1)
  {
    var (s, st) := ResolveIn(store, name);
    if !s.Imported() then (s.AsImport(), st[s.name := s.AsImport()]) else (s, st)
  }

  /** The stored indices are exactly 0..count-1, each used once, and every
      symbol is stored under its own name. */
  ghost predicate Ordinal(store: Store)
  {
    WellKeyed(store)
    && (forall k :: k in store ==> 0 <= store[k].index < |store|)
    && (forall k1, k2 :: k1 in store && k2 in store && store[k1].index == store[k2].index ==> k1 == k2)
    && (forall i :: 0 <= i < |store| ==> HasIndex(store, i))
  }

  ghost predicate HasIndex(store: Store, i: int)
  {
    exists k :: k in store && store[k].index == i
  }

  /** Replacing a stored symbol by one of the same index and name keeps the indices ordinal. */
  lemma {:induction false} RelinkKeepsOrdinal(store: Store, s: Symbol)
    requires Ordinal(store)
    requires s.name in store && store[s.name].index == s.index
    ensures Ordinal(store[s.name := s])
  {
    var st := store[s.name := s];
    assert |st| == |store| by {
      assert st.Keys == store.Keys;
    }
    forall i | 0 <= i < |st|
      ensures HasIndex(st, i)
    {
      assert HasIndex(store, i);
      var k :| k in store && store[k].index == i;
      assert st[k].index == i;
    }
  }

  lemma {:induction false} ResolveKeepsOrdinal(store: Store, name: string)
    requires Ordinal(store)
    ensures Ordinal(ResolveIn(store, name).1)
    ensures 0 <= ResolveIn(store, name).0.index < |ResolveIn(store, name).1|
  {
    if name !in store {
      var st := ResolveIn(store, name).1;
      forall i | 0 <= i < |st|
        ensures HasIndex(st, i)
      {
        if i < |store| {
          assert HasIndex(store, i);
          var k :| k in store && store[k].index == i;
          assert st[k].index == i;
        } else {
          assert st[name].index == i;
        }
      }
    }
  }

  lemma {:induction false} ExportKeepsOrdinal(store: Store, name: string)
    requires Ordinal(store)
    ensures Ordinal(ExportIn(store, name).1)
  {
    ResolveKeepsOrdinal(store, name);
    var (s, st) := ResolveIn(store, name);
    if !s.Exported() {
      RelinkKeepsOrdinal(st, s.AsExport());
    }
  }

  lemma {:induction false} ImportKeepsOrdinal(store: Store, name: string)
    requires Ordinal(store)
    ensures Ordinal(ImportIn(store, name).1)
  {
    ResolveKeepsOrdinal(store, name);
    var (s, st) := ResolveIn(store, name);
    if !s.Imported() {
      RelinkKeepsOrdinal(st, s.AsImport());
    }
  }

  /** Export yields the exported form of what Resolve would give, and a
      second Export changes nothing. */
  lemma ExportIdempotent(store: Store, name: string)
    requires WellKeyed(store)
    ensures var (s, st) := ExportIn(store, name);
      s == ResolveIn(store, name).0.AsExport() && ExportIn(st, name) == (s, st)
  {
  }

  /** Import yields the imported form of what Resolve would give, and a
      second Import changes nothing. */
  lemma ImportIdempotent(store: Store, name: string)
    requires WellKeyed(store)
    ensures var (s, st) := ImportIn(store, name);
      s == ResolveIn(store, name).0.AsImport() && ImportIn(st, name) == (s, st)
  {
  }

  /** Import after Export, or Export after Import, keeps only the latest link type. */
  lemma LatestPromotionWins(store: Store, name: string)
    requires WellKeyed(store)
    ensures ImportIn(ExportIn(store, name).1, name).1[name].Imported()
    ensures ExportIn(ImportIn(store, name).1, name).1[name].Exported()
    ensures ImportIn(ExportIn(store, name).1, name).0.index == ResolveIn(store, name).0.index
  {
  }

  /** A direct Update with an index of the caller's choosing can break the ordinal indices. */
  lemma UpdateCanBreakOrdinal()
    ensures Ordinal(map[])
    ensures !Ordinal(map[]["a" := Symbol(5, "a", Normal)])
  {
    var m: Store := map[]["a" := Symbol(5, "a", Normal)];
    assert |m| == 1;
    assert m["a"].index >= |m|;
  }

  /** SymbolTable.cs: a dictionary from names to symbols, updated in place. */
  class SymbolTable {
    var store: Store

    ghost predicate Valid()
      reads this
    {
      WellKeyed(store)
    }

    /** Indices 0..count-1, as Resolve, Import and Export keep them. */
    ghost predicate Ordered()
      reads this
    {
      Ordinal(store)
    }

    constructor()
      ensures store == map[] && Valid() && Ordered()
    {
      store := map[];
    }

    /** `Update(symbol)`: insert or replace under the symbol's name, and return it. */
    method Update(symbol: Symbol) returns (r: Symbol)
      requires Valid()
      modifies this
      ensures Valid()
      ensures store == old(store)[symbol.name := symbol] && r == symbol
      ensures |store| == if symbol.name in old(store) then |old(store)| else |old(store)| + 1
    {
      store := store[symbol.name := symbol];
      r := symbol;
    }

    method Resolve(name: string) returns (symbol: Symbol)
      requires Valid()
      modifies this
      ensures Valid()
      ensures (symbol, store) == ResolveIn(old(store), name)
      ensures old(Ordered()) ==> Ordered()
    {
      if name in store {
        symbol := store[name];
      } else {
        symbol := Update(NewSymbol(|store|, name));
      }
      if Ordinal(old(store)) {
        ResolveKeepsOrdinal(old(store), name);
      }
    }

    method Export(name: string) returns (symbol: Symbol)
      requires Valid()
      modifies this
      ensures Valid()
      ensures (symbol, store) == ExportIn(old(store), name)
      ensures old(Ordered()) ==> Ordered()
    {
      symbol := Resolve(name);
      if !symbol.Exported() {
        symbol := Update(symbol.AsExport());
      }
      if Ordinal(old(store)) {
        ExportKeepsOrdinal(old(store), name);
      }
    }

    method Import(name: string) returns (symbol: Symbol)
      requires Valid()
      modifies this
      ensures Valid()
      ensures (symbol, store) == ImportIn(old(store), name)
      ensures old(Ordered()) ==> Ordered()
    {
      symbol := Resolve(name);
      if !symbol.Imported() {
        symbol := Update(symbol.AsImport());
      }
      if Ordinal(old(store)) {
        ImportKeepsOrdinal(old(store), name);
      }
    }
  }
}
