/** The book of current facts that a ledger stands for: what clients see of its histories. */
module Books {
  import opened RecoveryGraph
  import opened RecordName
  import opened RecoveryChain
  import opened RecoveryAppend
  import opened LedgerRecords
  import opened LedgerInventory
  import opened LedgerStore
  import opened Clients

  function SourceOf(b: Binding): Source { Source(b.root, b.source) }

  function EntryOf(h: seq<Frame>): Entry
    requires |h| > 0
  {
    var n := |h| - 1;
    Entry(SourceOf(h[0].binding), h[0].binding.destination, h[0].binding.layout != ZERO_DIGEST, h[n].fact, Facts(h)[..n])
  }

  ghost function BookOf(hs: Ledger): Book
    requires NonEmpty(hs)
  {
    map k | k in hs :: EntryOf(hs[k])
  }

  lemma BookKey(hs: Ledger, k: Key)
    requires NonEmpty(hs)
    ensures k in BookOf(hs) <==> k in hs
  {
  }

  lemma BookEntry(hs: Ledger, k: Key)
    requires NonEmpty(hs) && k in hs
    ensures k in BookOf(hs) && BookOf(hs)[k] == EntryOf(hs[k])
  {
  }

  lemma NonEmptyAt(hs: Ledger, k: Key)
    requires NonEmpty(hs) && k in hs
    ensures |hs[k]| > 0
  {
  }

  lemma BookOfAdd(hs: Ledger, f: Frame)
    requires NonEmpty(hs)
    ensures var k := KeyOf(f.binding);
            NonEmpty(AddFrame(hs, f)) && BookOf(AddFrame(hs, f)) == BookOf(hs)[k := EntryOf(AddFrame(hs, f)[k])]
  {
    hide EntryOf;
  }

  lemma EntryAfter(h: seq<Frame>, f: Frame)
    requires |h| > 0
    ensures EntryOf(h + [f]) == Follow(EntryOf(h), f.fact)
  {
    var g := h + [f];
    assert Facts(g)[..|h|] == Facts(h);
    assert Facts(h) == Facts(h)[..|h| - 1] + [h[|h| - 1].fact];
  }

  lemma BookedPath(c: Codec, h: seq<Frame>)
    requires ValidHistory(c, h)
    ensures LegalPath(EntryOf(h).destination, Facts(h)) && Facts(h)[|h| - 1] == EntryOf(h).fact
  {
    HistoryFacts(c, h);
  }

  /** The dispatch of the recovery's move is on record. */
  predicate Dispatched(h: seq<Frame>) {
    Ordinary(MoveDispatchRecorded) in Facts(h)
  }

  lemma RecordedIsFact(h: seq<Frame>, f: Fact)
    requires |h| > 0
    ensures Recorded(EntryOf(h), f) <==> f in Facts(h)
  {
    var n := |h| - 1;
    assert Facts(h) == Facts(h)[..n] + [h[n].fact];
  }

  lemma OneOpenInBook(hs: Ledger)
    requires NonEmpty(hs) && OneOpenPerSource(hs)
    ensures OneOpen(BookOf(hs))
  {
    hide BookOf, EntryOf, OneOpenPerSource, Closed;
    forall k, l | k in BookOf(hs) && l in BookOf(hs) && k != l && !Closed(BookOf(hs)[k].fact) && !Closed(BookOf(hs)[l].fact)
      ensures BookOf(hs)[k].source != BookOf(hs)[l].source
    {
      BookKey(hs, k);
      BookKey(hs, l);
      BookEntry(hs, k);
      BookEntry(hs, l);
      OpenApart(hs, k, l);
    }
  }

  lemma OpenApart(hs: Ledger, k: Key, l: Key)
    requires NonEmpty(hs) && OneOpenPerSource(hs) && k in hs && l in hs && k != l
    requires !Closed(EntryOf(hs[k]).fact) && !Closed(EntryOf(hs[l]).fact)
    ensures EntryOf(hs[k]).source != EntryOf(hs[l]).source
  {
  }
}
