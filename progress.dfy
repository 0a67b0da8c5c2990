/**
 * The progress screens as projections of the catalog and the ledger: the
 * collection grid (a model item and a sound item per exhibit), the guided
 * route over the same items, and the home screen's count and badges.
 */
module Progress {
  import opened Catalog
  import opened Ledger

  datatype Channel = Model | Sound

  function KindOf(c: Channel): string
  {
    match c
    case Model => ModelKind
    case Sound => SoundKind
  }

  /** A collectible channel of one exhibit: a collection card or a route waypoint. */
  datatype Item = Item(feature: Feature, channel: Channel)

  /** An item is unlocked when its channel key or its exhibit's bare id is in the ledger. */
  predicate Unlocked(ledger: seq<string>, it: Item)
  {
    Has(ledger, it.feature.id, KindOf(it.channel))
  }

  /** Each exhibit's model item then its sound item, in catalog order. */
  function Expand(fs: seq<Feature>): (items: seq<Item>)
    ensures |items| == 2 * |fs|
    ensures forall i :: 0 <= i < |items| ==> items[i] == Item(fs[i / 2], if i % 2 == 0 then Model else Sound)
  {
    if fs == [] then []
    else
      var init := fs[..|fs| - 1];
      var prev := Expand(init);
      var items := prev + [Item(fs[|fs| - 1], Model), Item(fs[|fs| - 1], Sound)];
      assert forall i :: 0 <= i < |prev| ==> items[i] == prev[i] && init[i / 2] == fs[i / 2];
      items
  }

  /** The number of unlocked items, i.e. `items.filter(unlocked).length`. */
  function CountUnlocked(ledger: seq<string>, items: seq<Item>): (n: nat)
    ensures n <= |items|
  {
    if items == [] then 0
    else CountUnlocked(ledger, items[..|items| - 1]) + (if Unlocked(ledger, items[|items| - 1]) then 1 else 0)
  }

  /** The count is full exactly when every item is unlocked, and zero exactly when none is. */
  lemma {:induction false} CountUnlockedExtremes(ledger: seq<string>, items: seq<Item>)
    ensures CountUnlocked(ledger, items) == |items| <==> forall i :: 0 <= i < |items| ==> Unlocked(ledger, items[i])
    ensures CountUnlocked(ledger, items) == 0 <==> forall i :: 0 <= i < |items| ==> !Unlocked(ledger, items[i])
  {
    if items != [] {
      var n := |items| - 1;
      var init := items[..n];
      CountUnlockedExtremes(ledger, init);
      assert forall i :: 0 <= i < n ==> init[i] == items[i];
      assert CountUnlocked(ledger, items) == CountUnlocked(ledger, init) + (if Unlocked(ledger, items[n]) then 1 else 0);
    }
  }

  /** The route's active waypoint: the first item that is not unlocked, or -1 (`findIndex`). */
  function FirstIncomplete(ledger: seq<string>, items: seq<Item>): (k: int)
    ensures -1 <= k < |items|
    ensures k == -1 <==> forall i :: 0 <= i < |items| ==> Unlocked(ledger, items[i])
    ensures 0 <= k ==> !Unlocked(ledger, items[k]) && forall j :: 0 <= j < k ==> Unlocked(ledger, items[j])
  {
    if items == [] then -1
    else if !Unlocked(ledger, items[0]) then 0
    else
      var k := FirstIncomplete(ledger, items[1..]);
      assert forall i :: 1 <= i < |items| ==> items[i] == items[1..][i - 1];
      if k == -1 then -1 else k + 1
  }

  /**
   * `Math.round(part / whole * 100)` rounded half up, as the nearest integer
   * `p` to `100 * part / whole`: `p - 1/2 <= 100 * part / whole < p + 1/2`.
   */
  function RoundPercent(part: nat, whole: nat): (p: nat)
    requires 0 < whole && part <= whole
    ensures p <= 100
    ensures 2 * p * whole <= 200 * part + whole < 2 * p * whole + 2 * whole
  {
    var a := 200 * part + whole;
    var b := 2 * whole;
    DivBounds(a, b);
    DivBelow(a, b, 101);
    a / b
  }

  /** A full count rounds to 100 percent. */
  lemma RoundPercentWhole(n: nat)
    requires 0 < n
    ensures RoundPercent(n, n) == 100
  {
    var p := RoundPercent(n, n);
    if p < 100 {
      MulMono(n, 2 * p, 198);
      assert false;
    }
  }

  lemma DivBounds(a: nat, b: nat)
    requires 0 < b
    ensures b * (a / b) <= a < b * (a / b) + b
  {
  }

  lemma DivBelow(a: nat, b: nat, c: nat)
    requires 0 < b && a < b * c
    ensures a / b < c
  {
    DivBounds(a, b);
    if a / b >= c {
      MulMono(b, c, a / b);
    }
  }

  lemma MulMono(b: nat, x: nat, y: nat)
    requires x <= y
    ensures b * x <= b * y
  {
  }

  // ----- the collection and route screens over the catalog -----

  const TotalItems := 2 * |FEATURES|

  /** The collection screen's `totalUnlocked`. */
  function CollectionUnlocked(ledger: seq<string>): nat
  {
    CountUnlocked(ledger, Expand(FEATURES))
  }

  /** A collection card as the collection screen builds it: the item and its unlocked flag. */
  datatype Card = Card(item: Item, isUnlocked: bool)

  /** The number of cards whose flag is set. */
  function CountFlagged(cards: seq<Card>): (n: nat)
    ensures n <= |cards|
  {
    if cards == [] then 0
    else CountFlagged(cards[..|cards| - 1]) + (if cards[|cards| - 1].isUnlocked then 1 else 0)
  }

  /** Counting the cards' flags counts the unlocked items when each flag was computed by the unlock rule. */
  lemma {:induction false} CountFlaggedIsCountUnlocked(ledger: seq<string>, cards: seq<Card>, items: seq<Item>)
    requires |cards| == |items|
    requires forall i :: 0 <= i < |cards| ==> cards[i].item == items[i] && (cards[i].isUnlocked <==> Unlocked(ledger, items[i]))
    ensures CountFlagged(cards) == CountUnlocked(ledger, items)
  {
    if cards != [] {
      var n := |cards| - 1;
      var front, frontItems := cards[..n], items[..n];
      forall i | 0 <= i < n
        ensures front[i].item == frontItems[i] && (front[i].isUnlocked <==> Unlocked(ledger, frontItems[i]))
      {
        assert front[i] == cards[i] && frontItems[i] == items[i];
      }
      CountFlaggedIsCountUnlocked(ledger, front, frontItems);
      assert CountFlagged(cards) == CountFlagged(front) + (if cards[n].isUnlocked then 1 else 0);
      assert CountUnlocked(ledger, items) == CountUnlocked(ledger, frontItems) + (if Unlocked(ledger, items[n]) then 1 else 0);
    }
  }

  /** On an empty ledger nothing is collected: `0 / 8`, `0%`, and the route starts at its first waypoint. */
  lemma EmptyLedgerProgress()
    ensures TotalItems == 8
    ensures CollectionUnlocked([]) == 0
    ensures RoundPercent(CollectionUnlocked([]), TotalItems) == 0
    ensures FirstIncomplete([], Expand(FEATURES)) == 0
  {
    CountUnlockedExtremes([], Expand(FEATURES));
    assert !Unlocked([], Expand(FEATURES)[0]);
  }

  /** Every catalog item is unlocked exactly when the route has no active waypoint. */
  lemma RouteDoneIffCollectionFull(ledger: seq<string>)
    ensures FirstIncomplete(ledger, Expand(FEATURES)) == -1 <==> CollectionUnlocked(ledger) == TotalItems
  {
    CountUnlockedExtremes(ledger, Expand(FEATURES));
  }

  /** After the bulk unlock every item is collected: `8 / 8`, `100%`, and the route has no active waypoint. */
  lemma UnlockAllCompletes(ledger: seq<string>)
    ensures CollectionUnlocked(UnlockAllKeys(ledger, FEATURES)) == TotalItems
    ensures RoundPercent(CollectionUnlocked(UnlockAllKeys(ledger, FEATURES)), TotalItems) == 100
    ensures FirstIncomplete(UnlockAllKeys(ledger, FEATURES), Expand(FEATURES)) == -1
  {
    UnlockAllCompletesFor(ledger, FEATURES);
  }

  /** The bulk unlock of any non-empty exhibit list completes that list's collection and route. */
  lemma UnlockAllCompletesFor(ledger: seq<string>, fs: seq<Feature>)
    requires fs != []
    ensures CountUnlocked(UnlockAllKeys(ledger, fs), Expand(fs)) == 2 * |fs|
    ensures RoundPercent(CountUnlocked(UnlockAllKeys(ledger, fs), Expand(fs)), 2 * |fs|) == 100
    ensures FirstIncomplete(UnlockAllKeys(ledger, fs), Expand(fs)) == -1
  {
    UnlockAllUnlocksEvery(ledger, fs);
    CountUnlockedExtremes(UnlockAllKeys(ledger, fs), Expand(fs));
    RoundPercentWhole(2 * |fs|);
  }

  /** After the bulk unlock of any exhibit list, every item of that list is unlocked. */
  lemma UnlockAllUnlocksEvery(ledger: seq<string>, fs: seq<Feature>)
    ensures forall i :: 0 <= i < |Expand(fs)| ==> Unlocked(UnlockAllKeys(ledger, fs), Expand(fs)[i])
  {
    var l := UnlockAllKeys(ledger, fs);
    var items := Expand(fs);
    UnlockAllKeysCovers(ledger, fs);
    forall i | 0 <= i < |items| ensures Unlocked(l, items[i]) {
      assert fs[i / 2] in fs;
    }
  }

  /** Unlocking a channel key adds at most one collected item, and one exactly when that item was locked. */
  lemma UnlockOneItem(ledger: seq<string>, it: Item)
    requires it in Expand(FEATURES)
    ensures var key := ChannelKey(it.feature.id, KindOf(it.channel));
            CollectionUnlocked(Insert(ledger, key)) ==
              CollectionUnlocked(ledger) + (if Unlocked(ledger, it) then 0 else 1)
  {
    var key := ChannelKey(it.feature.id, KindOf(it.channel));
    var items := Expand(FEATURES);
    var after := Insert(ledger, key);
    forall i | 0 <= i < |items| && items[i] != it
      ensures Unlocked(after, items[i]) == Unlocked(ledger, items[i])
    {
      ItemKeysDistinct(items[i], it);
    }
    forall i, j | 0 <= i < j < |items| ensures items[i] != items[j] {
      if i / 2 == j / 2 {
        assert items[i].channel != items[j].channel;
      } else {
        CatalogIdsDistinct();
        assert items[i].feature != items[j].feature;
      }
    }
    CountChange(ledger, after, items, it);
  }

  /** Distinct catalog items have distinct channel keys, and a channel key is no bare catalog id. */
  lemma ItemKeysDistinct(a: Item, b: Item)
    requires a in Expand(FEATURES) && b in Expand(FEATURES) && a != b
    ensures ChannelKey(a.feature.id, KindOf(a.channel)) != ChannelKey(b.feature.id, KindOf(b.channel))
    ensures ChannelKey(b.feature.id, KindOf(b.channel)) != a.feature.id
  {
    var items := Expand(FEATURES);
    var i :| 0 <= i < |items| && items[i] == a;
    var j :| 0 <= j < |items| && items[j] == b;
    CatalogIdsDistinct();
    var ka := ChannelKey(a.feature.id, KindOf(a.channel));
    var kb := ChannelKey(b.feature.id, KindOf(b.channel));
    if a.feature == b.feature {
      ChannelKeysDistinct(a.feature.id, KindOf(a.channel), KindOf(b.channel));
      ChannelKeysDistinct(a.feature.id, KindOf(b.channel), KindOf(a.channel));
    } else {
      assert i / 2 != j / 2;
      assert a.feature.id != b.feature.id;
      // every catalog id has only lower-case letters, digits and '_' and none is a prefix of another plus '_'
      assert ka != kb by {
        CatalogKeysInjective(i / 2, j / 2, KindOf(a.channel), KindOf(b.channel));
      }
      assert kb != a.feature.id by {
        CatalogKeyNotId(j / 2, i / 2, KindOf(b.channel));
      }
    }
  }

  lemma CatalogKeysInjective(x: nat, y: nat, kx: string, ky: string)
    requires x < |FEATURES| && y < |FEATURES| && x != y
    requires kx in {ModelKind, SoundKind} && ky in {ModelKind, SoundKind}
    ensures ChannelKey(FEATURES[x].id, kx) != ChannelKey(FEATURES[y].id, ky)
  {
  }

  lemma CatalogKeyNotId(x: nat, y: nat, k: string)
    requires x < |FEATURES| && y < |FEATURES|
    requires k in {ModelKind, SoundKind}
    ensures ChannelKey(FEATURES[x].id, k) != FEATURES[y].id
  {
    // a channel key ends in 'l' or 'd'; no catalog id does
    var key := ChannelKey(FEATURES[x].id, k);
    assert key[|key| - 1] == k[|k| - 1];
    var id := FEATURES[y].id;
    assert id[|id| - 1] in {'g', 'r', 'n', 'b'};
  }

  /** If two ledgers agree on every item but one, the counts differ by that item's change. */
  lemma {:induction false} CountChange(l1: seq<string>, l2: seq<string>, items: seq<Item>, it: Item)
    requires Unlocked(l2, it)
    requires forall i :: 0 <= i < |items| && items[i] != it ==> Unlocked(l2, items[i]) == Unlocked(l1, items[i])
    requires forall i, j :: 0 <= i < j < |items| ==> items[i] != items[j]
    ensures CountUnlocked(l2, items) ==
              CountUnlocked(l1, items) + (if it in items && !Unlocked(l1, it) then 1 else 0)
  {
    if items != [] {
      var n := |items| - 1;
      var init := items[..n];
      var last := items[n];
      assert items == init + [last];
      forall i | 0 <= i < |init| && init[i] != it
        ensures Unlocked(l2, init[i]) == Unlocked(l1, init[i])
      {
        assert init[i] == items[i];
      }
      forall i, j | 0 <= i < j < |init|
        ensures init[i] != init[j]
      {
        assert init[i] == items[i] && init[j] == items[j];
      }
      CountChange(l1, l2, init, it);
      if last == it {
        forall i | 0 <= i < n
          ensures init[i] != it
        {
          assert init[i] == items[i];
        }
      } else {
        assert Unlocked(l2, last) == Unlocked(l1, last);
      }
      assert (it in items) == (it in init || last == it);
    }
  }

  // ----- the home screen -----

  /** The number of home badges: the first three exhibits. */
  const PreviewSize := 3

  /** Home badges as the source computes them: lit when the model key or the sound key is present. */
  function HomePreview(ledger: seq<string>, fs: seq<Feature>): (badges: seq<bool>)
    ensures |badges| == if |fs| < PreviewSize then |fs| else PreviewSize
  {
    var shown := if |fs| < PreviewSize then fs else fs[..PreviewSize];
    seq(|shown|, i requires 0 <= i < |shown| =>
      ChannelKey(shown[i].id, ModelKind) in ledger || ChannelKey(shown[i].id, SoundKind) in ledger)
  }

  /** Home badges by the unlock rule of the other screens: lit when either item of the exhibit is unlocked. */
  function HomePreviewByRule(ledger: seq<string>, fs: seq<Feature>): (badges: seq<bool>)
    ensures |badges| == if |fs| < PreviewSize then |fs| else PreviewSize
  {
    var shown := if |fs| < PreviewSize then fs else fs[..PreviewSize];
    seq(|shown|, i requires 0 <= i < |shown| =>
      Unlocked(ledger, Item(shown[i], Model)) || Unlocked(ledger, Item(shown[i], Sound)))
  }

  /** With the rule applied, a home badge is lit exactly when the collection shows a card of that exhibit unlocked. */
  lemma HomePreviewAgreesWithCollection(ledger: seq<string>, i: nat)
    requires i < PreviewSize
    ensures var items := Expand(FEATURES);
            HomePreviewByRule(ledger, FEATURES)[i] <==> Unlocked(ledger, items[2 * i]) || Unlocked(ledger, items[2 * i + 1])
  {
  }

  /**
   * The badges as written light no more than the rule does, and they agree
   * with the rule for every exhibit whose bare id is not in the ledger: the
   * bare id is the whole difference.
   */
  lemma HomePreviewBelowRule(ledger: seq<string>, fs: seq<Feature>, i: nat)
    requires i < |fs| && i < PreviewSize
    ensures HomePreview(ledger, fs)[i] ==> HomePreviewByRule(ledger, fs)[i]
    ensures fs[i].id !in ledger ==> (HomePreview(ledger, fs)[i] <==> HomePreviewByRule(ledger, fs)[i])
  {
    assert HomePreview(ledger, fs)[i] <==>
             ChannelKey(fs[i].id, ModelKind) in ledger || ChannelKey(fs[i].id, SoundKind) in ledger;
    assert HomePreviewByRule(ledger, fs)[i] <==>
             Unlocked(ledger, Item(fs[i], Model)) || Unlocked(ledger, Item(fs[i], Sound));
  }

  /** As written, the home badge of an exhibit collected through a legacy code stays dark although the collection shows both its cards unlocked. */
  lemma HomePreviewMissesLegacyUnlock()
    ensures var ledger := [FEATURES[0].id];
            && !HomePreview(ledger, FEATURES)[0]
            && HomePreviewByRule(ledger, FEATURES)[0]
            && Unlocked(ledger, Expand(FEATURES)[0]) && Unlocked(ledger, Expand(FEATURES)[1])
  {
    var ledger := [FEATURES[0].id];
    assert Unlocked(ledger, Item(FEATURES[0], Model));
    ChannelKeysDistinct(FEATURES[0].id, ModelKind, SoundKind);
    ChannelKeysDistinct(FEATURES[0].id, SoundKind, ModelKind);
    assert ChannelKey(FEATURES[0].id, ModelKind) !in ledger;
    assert ChannelKey(FEATURES[0].id, SoundKind) !in ledger;
  }
}
