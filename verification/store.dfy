/**
 * The market store (lib/store.ts): the consumer-facing read model. Ticker
 * batches are folded into a symbol-keyed price map, last delivered wins, and
 * the remaining fields are replaced by simple setters.
 */
module Store {
  import opened Wire

  /** The static metadata of a listed asset. The source's numeric fields
      (price, change, volume, market cap) are floating point and are not
      part of this model; the store only keeps the list it is given. */
  datatype Asset = Asset(id: string, symbol: string, name: string, image: string)

  /** The price map after the tickers of `batch` have been written into `m`
      one after another, as `newMap[t.s] = t` does. */
  function ApplyBatch(m: map<string, Ticker>, batch: seq<Ticker>): (r: map<string, Ticker>)
    ensures m.Keys <= r.Keys
    ensures forall sym :: sym in r && sym !in m ==> sym in Symbols(batch)
  {
    if batch == [] then m
    else
      var last := batch[|batch| - 1];
      ApplyBatch(m, batch[..|batch| - 1])[last.s := last]
  }

  /** The symbols that occur in a batch. */
  function Symbols(batch: seq<Ticker>): set<string>
  {
    set t | t in batch :: t.s
  }

  /** Folding a concatenation is folding its halves one after another, so two
      consecutive `updatePrices` calls equal one call on the joined batch. */
  lemma {:induction false} ApplyBatchAppend(m: map<string, Ticker>, b1: seq<Ticker>, b2: seq<Ticker>)
    ensures ApplyBatch(m, b1 + b2) == ApplyBatch(ApplyBatch(m, b1), b2)
  {
    if b2 != [] {
      var b := b1 + b2;
      var init := b2[..|b2| - 1];
      var last := b2[|b2| - 1];
      assert b[..|b| - 1] == b1 + init;
      assert b[|b| - 1] == last;
      ApplyBatchAppend(m, b1, init);
      calc {
        ApplyBatch(m, b);
        ApplyBatch(m, b1 + init)[last.s := last];
        ApplyBatch(ApplyBatch(m, b1), init)[last.s := last];
        ApplyBatch(ApplyBatch(m, b1), b2);
      }
    } else {
      assert b1 + b2 == b1;
    }
  }

  /** The key set after the update is the old key set plus the batch's symbols. */
  lemma {:induction false} ApplyBatchKeys(m: map<string, Ticker>, batch: seq<Ticker>)
    ensures ApplyBatch(m, batch).Keys == m.Keys + Symbols(batch)
  {
    if batch != [] {
      var init := batch[..|batch| - 1];
      ApplyBatchKeys(m, init);
      assert batch == init + [batch[|batch| - 1]];
      assert Symbols(batch) == Symbols(init) + {batch[|batch| - 1].s};
    }
  }

  /** A symbol the batch does not mention keeps exactly its previous entry,
      or stays absent. */
  lemma {:induction false} ApplyBatchUntouched(m: map<string, Ticker>, batch: seq<Ticker>, sym: string)
    requires sym !in Symbols(batch)
    ensures sym in ApplyBatch(m, batch) <==> sym in m
    ensures sym in m ==> ApplyBatch(m, batch)[sym] == m[sym]
  {
    if batch != [] {
      var init := batch[..|batch| - 1];
      assert Symbols(init) <= Symbols(batch) by {
        forall x | x in Symbols(init) ensures x in Symbols(batch) {
          var t :| t in init && t.s == x;
          assert t in batch;
        }
      }
      assert batch[|batch| - 1] in batch;
      ApplyBatchUntouched(m, init, sym);
    }
  }

  /** Last delivered wins: if `batch[j]` is the last ticker for its symbol,
      the map holds exactly that record for the symbol, whatever was there
      before and whatever earlier tickers of the batch said. */
  lemma {:induction false} ApplyBatchLastWins(m: map<string, Ticker>, batch: seq<Ticker>, j: nat)
    requires j < |batch|
    requires forall k :: j < k < |batch| ==> batch[k].s != batch[j].s
    ensures batch[j].s in ApplyBatch(m, batch)
    ensures ApplyBatch(m, batch)[batch[j].s] == batch[j]
  {
    if j < |batch| - 1 {
      var init := batch[..|batch| - 1];
      assert batch[|batch| - 1].s != batch[j].s;
      ApplyBatchLastWins(m, init, j);
    }
  }

  /** Every symbol of the batch ends up in the map, holding one of the batch's
      own records for that symbol: never a record merged with the old one. */
  lemma {:induction false} ApplyBatchWholeRecords(m: map<string, Ticker>, batch: seq<Ticker>, sym: string)
    requires sym in Symbols(batch)
    ensures sym in ApplyBatch(m, batch)
    ensures ApplyBatch(m, batch)[sym] in batch && ApplyBatch(m, batch)[sym].s == sym
  {
    var last := batch[|batch| - 1];
    if last.s != sym {
      var init := batch[..|batch| - 1];
      var t :| t in batch && t.s == sym;
      var i :| 0 <= i < |batch| && batch[i] == t;
      assert i < |batch| - 1 && init[i] == t;
      assert sym in Symbols(init);
      ApplyBatchWholeRecords(m, init, sym);
    }
  }

  /** The store state of lib/store.ts. The setters of the source are the
      methods below; Zustand's subscription and re-render machinery is not
      modelled. */
  class MarketStore {
    var assets: seq<Asset>
    var priceMap: map<string, Ticker>
    var activeSymbol: string
    var activeTicker: string
    var searchQuery: string

    /** The store's initial state. */
    constructor ()
      ensures assets == [] && priceMap == map[]
      ensures activeSymbol == "bitcoin" && activeTicker == "btc"
      ensures searchQuery == ""
    {
      assets := [];
      priceMap := map[];
      activeSymbol := "bitcoin";
      activeTicker := "btc";
      searchQuery := "";
    }

    /** `updatePrices`: copy the map and write every ticker of the batch
        into the copy under its symbol; no other field changes. */
    method UpdatePrices(tickers: seq<Ticker>)
      modifies this
      ensures priceMap == ApplyBatch(old(priceMap), tickers)
      ensures assets == old(assets) && activeSymbol == old(activeSymbol)
      ensures activeTicker == old(activeTicker) && searchQuery == old(searchQuery)
    {
      var newMap := priceMap;
      var i := 0;
      while i < |tickers|
        invariant 0 <= i <= |tickers|
        invariant newMap == ApplyBatch(old(priceMap), tickers[..i])
      {
        var t := tickers[i];
        assert tickers[..i + 1][..i] == tickers[..i];
        newMap := newMap[t.s := t];
        i := i + 1;
      }
      assert tickers[..i] == tickers;
      priceMap := newMap;
    }

    /** `setAssets` replaces the asset list and nothing else. */
    method SetAssets(newAssets: seq<Asset>)
      modifies this
      ensures assets == newAssets
      ensures priceMap == old(priceMap) && activeSymbol == old(activeSymbol)
      ensures activeTicker == old(activeTicker) && searchQuery == old(searchQuery)
    {
      assets := newAssets;
    }

    /** `setActiveSymbol` sets the asset id and its ticker together. */
    method SetActiveSymbol(id: string, symbol: string)
      modifies this
      ensures activeSymbol == id && activeTicker == symbol
      ensures assets == old(assets) && priceMap == old(priceMap)
      ensures searchQuery == old(searchQuery)
    {
      activeSymbol, activeTicker := id, symbol;
    }

    /** `setSearchQuery` replaces the search text and nothing else. */
    method SetSearchQuery(query: string)
      modifies this
      ensures searchQuery == query
      ensures assets == old(assets) && priceMap == old(priceMap)
      ensures activeSymbol == old(activeSymbol) && activeTicker == old(activeTicker)
    {
      searchQuery := query;
    }
  }
}
