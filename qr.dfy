/**
 * The QR unlock protocol: a decoded QR text is classified by its prefix,
 * split on ':' into fields, checked against the catalog and turned into at
 * most one new ledger key.
 */
module QrProtocol {
  import opened Wrappers
  import opened Catalog
  import opened Ledger

  const Colon := ':'
  const CollectTag := "ar-collect"
  const FeatureTag := "ar-feature"
  const CollectPrefix := CollectTag + [Colon]
  const FeaturePrefix := FeatureTag + [Colon]
  /** The type the legacy form stands for, which makes the key the bare id. */
  const BothKind := "both"

  // ----- JavaScript's `s.split(':')` and its inverse -----

  /** The colon-separated fields of `s`, in order; the empty text has one empty field. */
  function Split(s: string): (parts: seq<string>)
    ensures |parts| >= 1
  {
    if s == [] then [""]
    else
      var rest := Split(s[1..]);
      if s[0] == Colon then [""] + rest
      else [[s[0]] + rest[0]] + rest[1..]
  }

  /** `parts.join(':')`. */
  function Join(parts: seq<string>): string
    requires |parts| >= 1
  {
    if |parts| == 1 then parts[0] else parts[0] + [Colon] + Join(parts[1..])
  }

  predicate ColonFree(parts: seq<string>)
  {
    forall i :: 0 <= i < |parts| ==> Colon !in parts[i]
  }

  /** Splitting loses nothing: joining the fields gives the text back, and no field holds a colon. */
  lemma {:induction false} JoinSplit(s: string)
    ensures Join(Split(s)) == s
    ensures ColonFree(Split(s))
  {
    SplitFieldsColonFree(s);
    if s != [] {
      var rest := Split(s[1..]);
      JoinSplit(s[1..]);
      if s[0] != Colon {
        var head := [s[0]] + rest[0];
        assert Split(s) == [head] + rest[1..];
        if |rest| == 1 {
          assert Join(Split(s)) == head;
        } else {
          assert Join(Split(s)) == head + [Colon] + Join(rest[1..]);
          assert Join(rest) == rest[0] + [Colon] + Join(rest[1..]);
        }
        assert s == [s[0]] + s[1..];
      } else {
        assert Split(s) == [""] + rest;
        assert s == [Colon] + s[1..];
      }
    }
  }

  /** No field of a split holds a colon. */
  lemma {:induction false} SplitFieldsColonFree(s: string)
    ensures ColonFree(Split(s))
  {
    if s != [] {
      var rest := Split(s[1..]);
      SplitFieldsColonFree(s[1..]);
      if s[0] != Colon {
        assert Colon !in rest[0];
        forall i | 0 <= i < |Split(s)| ensures Colon !in Split(s)[i] {
          if i > 0 {
            assert Split(s)[i] == rest[i];
          }
        }
      } else {
        forall i | 0 <= i < |Split(s)| ensures Colon !in Split(s)[i] {
          if i > 0 {
            assert Split(s)[i] == rest[i - 1];
          }
        }
      }
    }
  }

  /** A text without colons is a single field. */
  lemma {:induction false} SplitColonFree(p: string)
    requires Colon !in p
    ensures Split(p) == [p]
  {
    if p != [] {
      assert Colon !in p[1..] by {
        forall i | 0 <= i < |p[1..]| ensures p[1..][i] != Colon {
          assert p[1..][i] == p[i + 1];
        }
      }
      SplitColonFree(p[1..]);
      assert [p[0]] + p[1..] == p;
    }
  }

  /** A colon-free first field followed by a colon splits off as one field. */
  lemma {:induction false} SplitCons(p: string, r: string)
    requires Colon !in p
    ensures Split(p + [Colon] + r) == [p] + Split(r)
  {
    var s := p + [Colon] + r;
    if p == [] {
      assert s[1..] == r;
    } else {
      assert s[1..] == p[1..] + [Colon] + r;
      assert Colon !in p[1..] by {
        forall i | 0 <= i < |p[1..]| ensures p[1..][i] != Colon {
          assert p[1..][i] == p[i + 1];
        }
      }
      SplitCons(p[1..], r);
      assert [p[0]] + p[1..] == p;
    }
  }

  /** Splitting undoes joining colon-free fields. */
  lemma {:induction false} SplitJoin(parts: seq<string>)
    requires |parts| >= 1 && ColonFree(parts)
    ensures Split(Join(parts)) == parts
  {
    if |parts| == 1 {
      SplitColonFree(parts[0]);
    } else {
      assert Colon !in parts[0];
      SplitJoin(parts[1..]);
      SplitCons(parts[0], Join(parts[1..]));
      assert [parts[0]] + parts[1..] == parts;
    }
  }

  // ----- fields as an independent reading of the text -----

  /** `f` is the colon-free field at the front of `s`: it runs up to the first colon or the end. */
  predicate IsField(f: string, s: string)
  {
    f <= s && Colon !in f && (|f| == |s| || s[|f|] == Colon)
  }

  /** A text has exactly one front field. */
  lemma FieldUnique(f: string, g: string, s: string)
    requires IsField(f, s) && IsField(g, s)
    ensures f == g
  {
  }

  /** The first split field is the front field; the remaining fields are the split of what follows its colon. */
  lemma SplitHead(s: string)
    ensures IsField(Split(s)[0], s)
    ensures |Split(s)| > 1 <==> |Split(s)[0]| < |s|
    ensures |Split(s)| > 1 ==> Split(s)[1..] == Split(s[|Split(s)[0]| + 1..])
  {
    SplitFrontField(s);
    SplitMore(s);
    SplitRest(s);
  }

  /** The first split field runs up to the first colon or the end. */
  lemma {:induction false} SplitFrontField(s: string)
    ensures IsField(Split(s)[0], s)
  {
    if s != [] && s[0] != Colon {
      var rest := Split(s[1..]);
      SplitFrontField(s[1..]);
      var head := [s[0]] + rest[0];
      assert Split(s)[0] == head;
      assert s == [s[0]] + s[1..];
      if |head| < |s| {
        assert s[|head|] == s[1..][|rest[0]|];
      }
    }
  }

  /** There is a second field exactly when the first one stops short of the end. */
  lemma {:induction false} SplitMore(s: string)
    ensures |Split(s)| > 1 <==> |Split(s)[0]| < |s|
  {
    if s != [] && s[0] != Colon {
      var rest := Split(s[1..]);
      SplitMore(s[1..]);
      assert Split(s)[0] == [s[0]] + rest[0];
      assert |Split(s)| == |rest|;
    }
  }

  /** The fields after the first are the split of the text after its colon. */
  lemma {:induction false} SplitRest(s: string)
    ensures |Split(s)| > 1 ==> |Split(s)[0]| < |s| && Split(s)[1..] == Split(s[|Split(s)[0]| + 1..])
  {
    SplitMore(s);
    if s != [] {
      var rest := Split(s[1..]);
      if s[0] != Colon {
        SplitRest(s[1..]);
        SplitMore(s[1..]);
        var head := [s[0]] + rest[0];
        assert Split(s) == [head] + rest[1..];
        if |rest| > 1 {
          assert s[1..][|rest[0]| + 1..] == s[|head| + 1..];
        }
      } else {
        assert Split(s) == [""] + rest;
        assert Split(s)[1..] == rest;
      }
    }
  }

  /** A text that starts with the colon-free tag `p` and a colon has `p` as its first field. */
  lemma PrefixSplit(p: string, s: string)
    requires Colon !in p && p + [Colon] <= s
    ensures Split(s) == [p] + Split(s[|p| + 1..])
  {
    assert s == p + [Colon] + s[|p| + 1..];
    SplitCons(p, s[|p| + 1..]);
  }

  lemma TagsColonFree()
    ensures Colon !in CollectTag && Colon !in FeatureTag
  {
  }

  // ----- classification -----

  /** What a decoded text says, before the catalog is consulted. */
  datatype Payload =
    | Collect(kind: string, itemId: Option<string>)   // `ar-collect:<type>:<id>`; the id is undefined when the field is missing
    | Legacy(id: string)                          // `ar-feature:<id>`
    | Unrecognized

  /** Prefix test, then `split(':')`: fields 1 and 2 of the canonical form, field 1 of the legacy form. */
  function Parse(text: string): Payload
  {
    TagsColonFree();
    if CollectPrefix <= text then
      PrefixSplit(CollectTag, text);
      var parts := Split(text);
      Collect(parts[1], if |parts| > 2 then Some(parts[2]) else None)
    else if FeaturePrefix <= text then
      PrefixSplit(FeatureTag, text);
      Legacy(Split(text)[1])
    else
      Unrecognized
  }

  /**
   * The meaning of a parse, stated through front fields rather than the split:
   * only the two prefixes are recognized; the canonical form's type is the
   * field after the prefix and its id the field after that, missing exactly
   * when the text ends with the type; the legacy form's id is the field after
   * its prefix.
   */
  lemma ParseMeaning(text: string)
    ensures Parse(text).Unrecognized? <==> !(CollectPrefix <= text) && !(FeaturePrefix <= text)
    ensures Parse(text).Collect? <==> CollectPrefix <= text
    ensures Parse(text).Collect? ==>
              var after := text[|CollectPrefix|..];
              var p := Parse(text);
              && IsField(p.kind, after)
              && (p.itemId.None? <==> |p.kind| == |after|)
              && (p.itemId.Some? ==> IsField(p.itemId.value, after[|p.kind| + 1..]))
    ensures Parse(text).Legacy? ==> FeaturePrefix <= text && IsField(Parse(text).id, text[|FeaturePrefix|..])
  {
    TagsColonFree();
    if CollectPrefix <= text {
      var after := text[|CollectPrefix|..];
      PrefixSplit(CollectTag, text);
      SplitHead(after);
      var kind := Split(after)[0];
      if |Split(after)| > 1 {
        SplitHead(after[|kind| + 1..]);
      }
    } else if FeaturePrefix <= text {
      PrefixSplit(FeatureTag, text);
      SplitHead(text[|FeaturePrefix|..]);
    }
  }

  /** The canonical text of a collect code. */
  function CollectText(kind: string, id: string): string
  {
    CollectPrefix + kind + [Colon] + id
  }

  /** The text of a legacy code. */
  function LegacyText(id: string): string
  {
    FeaturePrefix + id
  }

  /** Parsing inverts the canonical encoding. */
  lemma ParseCollectText(kind: string, id: string)
    requires Colon !in kind && Colon !in id
    ensures Parse(CollectText(kind, id)) == Collect(kind, Some(id))
  {
    var text := CollectText(kind, id);
    TagsColonFree();
    assert text == CollectTag + [Colon] + (kind + [Colon] + id);
    SplitCons(CollectTag, kind + [Colon] + id);
    SplitCons(kind, id);
    SplitColonFree(id);
    assert Split(text) == [CollectTag, kind, id];
  }

  /** Parsing inverts the legacy encoding. */
  lemma ParseLegacyText(id: string)
    requires Colon !in id
    ensures Parse(LegacyText(id)) == Legacy(id)
  {
    var text := LegacyText(id);
    TagsColonFree();
    assert text == FeatureTag + [Colon] + id;
    assert !(CollectPrefix <= text) by {
      assert text[3] == 'f';
    }
    SplitCons(FeatureTag, id);
    SplitColonFree(id);
  }

  // ----- the unlock -----

  /** The key a scan unlocks: `<id>_<type>`, or the bare id when the type is `both`. */
  function UnlockKey(kind: string, id: string): string
  {
    if kind == BothKind then id else ChannelKey(id, kind)
  }

  datatype ScanOutcome = UnrecognizedFormat | UnknownItem | AlreadyCollected | NewlyCollected(count: nat)

  /** A parsed text either names a catalog exhibit and yields a key, or is rejected with its error. */
  datatype Resolution = Rejected(error: ScanOutcome) | Resolved(key: string, feature: Feature)

  function Resolve(text: string): (r: Resolution)
    ensures r.Rejected? ==> r.error.UnrecognizedFormat? || r.error.UnknownItem?
    ensures r.Resolved? ==> r.feature in FEATURES && r.feature.id <= r.key
  {
    match Parse(text)
    case Unrecognized => Rejected(UnrecognizedFormat)
    case Collect(kind, id) =>
      if id.None? then Rejected(UnknownItem)
      else
        var f := Find(FEATURES, id.value);
        if f.None? then Rejected(UnknownItem) else Resolved(UnlockKey(kind, id.value), f.value)
    case Legacy(id) =>
      var f := Find(FEATURES, id);
      if f.None? then Rejected(UnknownItem) else Resolved(UnlockKey(BothKind, id), f.value)
  }

  /**
   * What a text resolves to, read off its parse: only texts of neither form
   * are unrecognized; a collect text with an id, or a legacy text, resolves
   * exactly when its id is in the catalog, to that exhibit and its unlock key.
   */
  lemma ResolveMeaning(text: string)
    ensures Parse(text).Unrecognized? <==> Resolve(text) == Rejected(UnrecognizedFormat)
    ensures Parse(text).Collect? ==>
              var p := Parse(text);
              && (Resolve(text).Resolved? <==> p.itemId.Some? && Find(FEATURES, p.itemId.value).Some?)
              && (Resolve(text).Resolved? ==> Resolve(text).key == UnlockKey(p.kind, p.itemId.value) && Resolve(text).feature.id == p.itemId.value)
    ensures Parse(text).Legacy? ==>
              var p := Parse(text);
              && (Resolve(text).Resolved? <==> Find(FEATURES, p.id).Some?)
              && (Resolve(text).Resolved? ==> Resolve(text).key == UnlockKey(BothKind, p.id) && Resolve(text).feature.id == p.id)
  {
  }

  datatype ScanStep = ScanStep(outcome: ScanOutcome, ledger: seq<string>)

  /**
   * One successful decode against the ledger. The ledger only ever grows by
   * the one resolved key, and only when that exact key was absent; the
   * reported count is then the new ledger length.
   */
  function Scan(ledger: seq<string>, text: string): (r: ScanStep)
    ensures ledger <= r.ledger && |r.ledger| <= |ledger| + 1
    ensures r.ledger != ledger <==> r.outcome.NewlyCollected?
    ensures r.outcome.NewlyCollected? ==>
              && Resolve(text).Resolved?
              && r.ledger == ledger + [Resolve(text).key]
              && Resolve(text).key !in ledger
              && r.outcome.count == |r.ledger|
    ensures r.outcome.AlreadyCollected? <==> Resolve(text).Resolved? && Resolve(text).key in ledger
    ensures Resolve(text).Rejected? ==> r.outcome == Resolve(text).error
    ensures Resolve(text).Resolved? && Resolve(text).key !in ledger ==>
              r == ScanStep(NewlyCollected(|ledger| + 1), ledger + [Resolve(text).key])
    ensures NoDuplicates(ledger) ==> NoDuplicates(r.ledger)
  {
    match Resolve(text)
    case Rejected(e) => ScanStep(e, ledger)
    case Resolved(key, _) =>
      if key in ledger then ScanStep(AlreadyCollected, ledger)
      else ScanStep(NewlyCollected(|ledger| + 1), ledger + [key])
  }

  /** A resolved text: the scan adds the key exactly when it is absent. */
  lemma ScanResolved(ledger: seq<string>, text: string, key: string)
    requires Resolve(text).Resolved? && Resolve(text).key == key
    ensures Scan(ledger, text) ==
              if key in ledger then ScanStep(AlreadyCollected, ledger)
              else ScanStep(NewlyCollected(|ledger| + 1), ledger + [key])
  {
  }

  /** A rejected text: the scan reports the error and leaves the ledger as it is. */
  lemma ScanRejected(ledger: seq<string>, text: string, error: ScanOutcome)
    requires Resolve(text) == Rejected(error)
    ensures Scan(ledger, text) == ScanStep(error, ledger)
  {
  }

  /** Scanning the same text twice: the second scan changes nothing and, if the first unlocked, reports it collected. */
  lemma ScanTwice(ledger: seq<string>, text: string)
    ensures var once := Scan(ledger, text);
            var twice := Scan(once.ledger, text);
            && twice.ledger == once.ledger
            && (once.outcome.NewlyCollected? || once.outcome.AlreadyCollected? ==> twice.outcome == AlreadyCollected)
            && (once.outcome.UnrecognizedFormat? || once.outcome.UnknownItem? ==> twice.outcome == once.outcome)
  {
  }

  /** A canonical code of a catalog exhibit unlocks exactly `<id>_<type>`, unless that key is present. */
  lemma ScanCollectCode(ledger: seq<string>, kind: string, id: string)
    requires Colon !in kind && Colon !in id && kind != BothKind
    requires Find(FEATURES, id).Some?
    ensures var key := ChannelKey(id, kind);
            Scan(ledger, CollectText(kind, id)) ==
              if key in ledger then ScanStep(AlreadyCollected, ledger)
              else ScanStep(NewlyCollected(|ledger| + 1), ledger + [key])
  {
    ParseCollectText(kind, id);
  }

  /** A legacy code of a catalog exhibit unlocks the bare id, unless it is present. */
  lemma ScanLegacyCode(ledger: seq<string>, id: string)
    requires Colon !in id
    requires Find(FEATURES, id).Some?
    ensures Scan(ledger, LegacyText(id)) ==
              if id in ledger then ScanStep(AlreadyCollected, ledger)
              else ScanStep(NewlyCollected(|ledger| + 1), ledger + [id])
  {
    ParseLegacyText(id);
  }

  /** A text with neither prefix is rejected as unrecognized and leaves the ledger alone. */
  lemma ScanUnrecognized(ledger: seq<string>, text: string)
    requires !(CollectPrefix <= text) && !(FeaturePrefix <= text)
    ensures Scan(ledger, text) == ScanStep(UnrecognizedFormat, ledger)
  {
    ParseMeaning(text);
  }

  /** A well-formed code whose id is not in the catalog is rejected as unknown and leaves the ledger alone. */
  lemma ScanUnknownItem(ledger: seq<string>, kind: string, id: string)
    requires Colon !in kind && Colon !in id
    requires Find(FEATURES, id).None?
    ensures Scan(ledger, CollectText(kind, id)) == ScanStep(UnknownItem, ledger)
    ensures Scan(ledger, LegacyText(id)) == ScanStep(UnknownItem, ledger)
  {
    ParseCollectText(kind, id);
    ParseLegacyText(id);
  }

  /**
   * The canonical form with type `both` unlocks the bare id, exactly as the
   * legacy form does.
   */
  lemma CollectBothIsLegacy(ledger: seq<string>, id: string)
    requires Colon !in id
    ensures Scan(ledger, CollectText(BothKind, id)) == Scan(ledger, LegacyText(id))
  {
    ParseCollectText(BothKind, id);
    ParseLegacyText(id);
  }

  /**
   * The unlock test is exact membership: a ledger holding only the bare id
   * still accepts the channel key as newly collected.
   */
  lemma ExactMembershipAfterLegacy(ledger: seq<string>, text: string, id: string)
    requires Parse(text) == Collect(ModelKind, Some(id)) && Find(FEATURES, id).Some?
    requires id in ledger && ChannelKey(id, ModelKind) !in ledger
    ensures Has(ledger, id, ModelKind)
    ensures Scan(ledger, text) == ScanStep(NewlyCollected(|ledger| + 1), ledger + [ChannelKey(id, ModelKind)])
  {
  }
}
