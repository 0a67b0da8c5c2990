/**
 * Concrete runs of the unlock protocol against the progress screens. Each
 * scan is stated for any text with the parse of the code it scans; the
 * `...Code` lemmas show that the spelled-out code has that parse.
 */
module Scenarios {
  import opened Wrappers
  import opened Catalog
  import opened Ledger
  import opened QrProtocol
  import opened Progress

  lemma BellInCatalog()
    ensures Find(FEATURES, "bell_47g").Some? && Find(FEATURES, "ellehammer").Some? && Find(FEATURES, "saab").Some?
  {
    assert FEATURES[0].id == "bell_47g";
    assert FEATURES[1].id == "ellehammer";
    assert FEATURES[3].id == "saab";
  }

  /** `ar-collect:model:bell_47g` is the canonical code for the Bell 47G model. */
  lemma FirstModelCode()
    ensures Parse("ar-collect:model:bell_47g") == Collect(ModelKind, Some("bell_47g"))
  {
    assert CollectText(ModelKind, "bell_47g") == "ar-collect:model:bell_47g";
    ParseCollectText(ModelKind, "bell_47g");
  }

  /** Scanning the Bell 47G model code on an empty ledger collects `bell_47g_model` as item 1. */
  lemma FirstModelScan(text: string, id: string)
    requires id == "bell_47g" && Parse(text) == Collect(ModelKind, Some(id))
    ensures Scan([], text) == ScanStep(NewlyCollected(1), [ChannelKey(id, ModelKind)])
  {
    BellInCatalog();
  }

  /** The keys these runs collect, spelled out. */
  lemma KeySpellings()
    ensures ChannelKey("bell_47g", ModelKind) == "bell_47g_model"
    ensures ChannelKey("saab", SoundKind) == "saab_sound"
  {
  }

  /** With `bell_47g_model` as the only key the collection shows `1 / 8`, `13%`. */
  lemma OneModelCollected(id: string)
    requires id == FEATURES[0].id
    ensures CollectionUnlocked([ChannelKey(id, ModelKind)]) == 1
    ensures RoundPercent(1, TotalItems) == 13
  {
    var it := Item(FEATURES[0], Model);
    assert it == Expand(FEATURES)[0];
    EmptyLedgerProgress();
    UnlockOneItem([], it);
    assert Insert([], ChannelKey(id, ModelKind)) == [ChannelKey(id, ModelKind)];
  }

  /** `ar-feature:ellehammer` is the legacy code for the Ellehammer exhibit. */
  lemma EllehammerLegacyCode()
    ensures Parse("ar-feature:ellehammer") == Legacy("ellehammer")
  {
    assert LegacyText("ellehammer") == "ar-feature:ellehammer";
    ParseLegacyText("ellehammer");
  }

  /** Scanning the Ellehammer legacy code unlocks both of its channels. */
  lemma LegacyScanUnlocksBoth(ledger: seq<string>, text: string)
    requires Parse(text) == Legacy("ellehammer") && "ellehammer" !in ledger
    ensures var after := Scan(ledger, text);
            && after == ScanStep(NewlyCollected(|ledger| + 1), ledger + ["ellehammer"])
            && Has(after.ledger, "ellehammer", ModelKind)
            && Has(after.ledger, "ellehammer", SoundKind)
  {
    BellInCatalog();
  }

  /** Text of neither form is unrecognized and changes nothing. */
  lemma GarbageScan(ledger: seq<string>)
    ensures Scan(ledger, "garbage-text") == ScanStep(UnrecognizedFormat, ledger)
  {
    assert "garbage-text"[0] == 'g';
    ScanUnrecognized(ledger, "garbage-text");
  }

  /** `ar-collect:sound:saab` is the canonical code for the Saab sound. */
  lemma SaabSoundCode()
    ensures Parse("ar-collect:sound:saab") == Collect(SoundKind, Some("saab"))
  {
    assert CollectText(SoundKind, "saab") == "ar-collect:sound:saab";
    ParseCollectText(SoundKind, "saab");
  }

  /** Rescanning the Saab sound code once `saab_sound` is collected reports it collected and keeps the ledger. */
  lemma RescanCollected(ledger: seq<string>, text: string, id: string)
    requires id == "saab" && Parse(text) == Collect(SoundKind, Some(id)) && ChannelKey(id, SoundKind) in ledger
    ensures Scan(ledger, text) == ScanStep(AlreadyCollected, ledger)
  {
    BellInCatalog();
  }
}
