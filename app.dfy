/**
 * The application state of the page: navigation, the scanner session, the
 * scan-result dialog, the unlock ledger and its stored copy, the AR model
 * visibility flags and the single audio slot, with the event handlers that
 * update them in place.
 */
module App {
  import opened Wrappers
  import opened Catalog
  import opened Ledger
  import opened QrProtocol
  import opened Progress
  import opened Navigation

  /** The QR scanner session: no instance, started, or paused while a result is shown. */
  datatype ScannerState = Stopped | Running | Paused

  /** The stored ledger: an absent entry reads as the empty list. */
  function Load(saved: Option<seq<string>>): seq<string>
  {
    match saved
    case None => []
    case Some(keys) => keys
  }

  class AppState {
    /** The ids that have a screen element on the page. */
    const screens: set<string>

    var currentScreen: string
    var screenHistory: seq<string>
    /** The screen marked active, if any. */
    var shown: Option<string>
    var menuHidden: bool
    var scanner: ScannerState
    var resultOpen: bool
    var unlockedFeatures: seq<string>
    /** The durable copy of the ledger. */
    var saved: Option<seq<string>>
    var activeModelIndex: int
    /** Visibility of each loaded 3D model, in catalog order. */
    var models: array<bool>
    /** The id of the exhibit whose sound is playing, if any. */
    var currentAudio: Option<string>

    function NavState(): Nav
      reads this`currentScreen, this`screenHistory
    {
      Nav(currentScreen, screenHistory)
    }

    /** The history is wellformed and only the current screen can be shown. */
    ghost predicate ScreensCoherent()
      reads this`currentScreen, this`screenHistory, this`shown
    {
      && Wellformed(NavState(), screens)
      && (shown.Some? ==> shown.value == currentScreen)
    }

    /** The QR scanner exists only on the scanner screen. */
    ghost predicate ScannerCoherent()
      reads this`currentScreen, this`scanner
    {
      scanner != Stopped ==> currentScreen == ScannerScreen
    }

    /** The stored copy is the in-memory ledger. */
    ghost predicate Stored()
      reads this`saved, this`unlockedFeatures
    {
      Load(saved) == unlockedFeatures
    }

    /** Holds between events whatever the history's top. */
    ghost predicate Coherent()
      reads this`currentScreen, this`screenHistory, this`shown, this`scanner, this`saved, this`unlockedFeatures
    {
      ScreensCoherent() && ScannerCoherent() && Stored()
    }

    /** Coherent, and the history's top is the current screen. */
    ghost predicate Valid()
      reads this`currentScreen, this`screenHistory, this`shown, this`scanner, this`saved, this`unlockedFeatures
    {
      Coherent() && Navigation.Valid(NavState(), screens)
    }

    /** Page load: home screen, history `[home]`, the ledger read from storage. */
    constructor (screens: set<string>, saved: Option<seq<string>>)
      requires HomeScreen in screens
      ensures Valid()
      ensures this.screens == screens && this.saved == saved
      ensures NavState() == Initial && shown == Some(HomeScreen) && !menuHidden
      ensures unlockedFeatures == Load(saved)
      ensures scanner == Stopped && !resultOpen && currentAudio == None
      ensures activeModelIndex == 0 && models.Length == 0
    {
      this.screens := screens;
      this.saved := saved;
      currentScreen := HomeScreen;
      screenHistory := [HomeScreen];
      shown := Some(HomeScreen);
      menuHidden := false;
      scanner := Stopped;
      resultOpen := false;
      unlockedFeatures := Load(saved);
      activeModelIndex := 0;
      models := new bool[0];
      currentAudio := None;
    }

    /** Release the camera: the scanner instance is stopped and dropped. */
    method StopScanner()
      modifies this`scanner
      ensures scanner == Stopped
    {
      if scanner != Stopped {
        scanner := Stopped;
      }
    }

    /** Stop any previous instance and start a fresh one. */
    method InitScanner()
      modifies this`scanner
      ensures scanner == Running
    {
      StopScanner();
      scanner := Running;
    }

    /**
     * Leaving the scanner releases the camera first, whether or not the target
     * exists; then the target, if it exists, is shown, pushed when it differs
     * from the current screen, initialised, and decides the menu's visibility.
     */
    method NavigateTo(screenId: string)
      requires Coherent()
      modifies this
      ensures Coherent()
      ensures old(Valid()) || (screenId in screens && old(screenHistory)[|old(screenHistory)| - 1] == screenId) ==> Valid()
      ensures NavState() == Navigate(old(NavState()), screenId, screens)
      ensures shown == if screenId in screens then Some(screenId) else None
      ensures menuHidden == if screenId in screens then HidesMenu(screenId) else old(menuHidden)
      ensures scanner ==
                if screenId in screens && screenId == ScannerScreen then Running
                else if old(currentScreen) == ScannerScreen && screenId != ScannerScreen then Stopped
                else old(scanner)
      ensures unlockedFeatures == old(unlockedFeatures) && saved == old(saved)
      ensures resultOpen == old(resultOpen) && currentAudio == old(currentAudio)
      ensures activeModelIndex == old(activeModelIndex) && models == old(models)
    {
      shown := None;
      if currentScreen == ScannerScreen && screenId != ScannerScreen {
        StopScanner();
      }
      if screenId in screens {
        shown := Some(screenId);
        if currentScreen != screenId {
          screenHistory := screenHistory + [screenId];
          currentScreen := screenId;
        }
        if screenId == ScannerScreen {
          InitScanner();
        }
        menuHidden := HidesMenu(screenId);
      }
    }

    /** Pop one history entry, then navigate to the new top (which pushes it again when it moves). */
    method GoBack()
      requires Valid()
      modifies this
      ensures Valid()
      ensures NavState() == BackAsWritten(old(NavState()), screens)
      ensures |old(screenHistory)| == 1 ==>
                NavState() == old(NavState()) && shown == old(shown) && menuHidden == old(menuHidden) && scanner == old(scanner)
      ensures |old(screenHistory)| > 1 ==>
                var prev := old(screenHistory)[|old(screenHistory)| - 2];
                && shown == Some(prev)
                && menuHidden == HidesMenu(prev)
                && scanner == (if prev == ScannerScreen then Running else Stopped)
      ensures unlockedFeatures == old(unlockedFeatures) && saved == old(saved)
      ensures resultOpen == old(resultOpen) && currentAudio == old(currentAudio)
      ensures activeModelIndex == old(activeModelIndex) && models == old(models)
    {
      if |screenHistory| > 1 {
        screenHistory := screenHistory[..|screenHistory| - 1];
        var prevScreen := screenHistory[|screenHistory| - 1];
        NavigateTo(prevScreen);
      }
    }

    /**
     * A decoded QR text: classify, look up, append the key if it is not
     * exactly present and store the ledger; open the result dialog; pause the
     * scanner on the two unlock outcomes only.
     */
    method OnScanSuccess(decodedText: string) returns (outcome: ScanOutcome)
      requires Valid()
      modifies this`unlockedFeatures, this`saved, this`resultOpen, this`scanner
      ensures Valid()
      ensures ScanStep(outcome, unlockedFeatures) == Scan(old(unlockedFeatures), decodedText)
      ensures saved == if outcome.NewlyCollected? then Some(unlockedFeatures) else old(saved)
      ensures resultOpen
      ensures scanner ==
                if (outcome.NewlyCollected? || outcome.AlreadyCollected?) && old(scanner) != Stopped then Paused
                else old(scanner)
      ensures NavState() == old(NavState()) && shown == old(shown) && menuHidden == old(menuHidden)
      ensures currentAudio == old(currentAudio) && activeModelIndex == old(activeModelIndex) && models == old(models)
    {
      outcome := ApplyScan(decodedText);
      resultOpen := true;
      if (outcome.NewlyCollected? || outcome.AlreadyCollected?) && scanner != Stopped {
        scanner := Paused;
      }
    }

    /** The ledger part of a decoded text: classify, look up, and record the key if it is not exactly present. */
    method ApplyScan(decodedText: string) returns (outcome: ScanOutcome)
      requires Stored()
      modifies this`unlockedFeatures, this`saved
      ensures Stored()
      ensures ScanStep(outcome, unlockedFeatures) == Scan(old(unlockedFeatures), decodedText)
      ensures saved == if outcome.NewlyCollected? then Some(unlockedFeatures) else old(saved)
    {
      // parse the text and look the exhibit up; a rejection changes nothing
      var resolution := Resolve(decodedText);
      match resolution {
        case Rejected(error) =>
          ScanRejected(unlockedFeatures, decodedText, error);
          outcome := error;
        case Resolved(unlockKey, _) =>
          ScanResolved(unlockedFeatures, decodedText, unlockKey);
          outcome := RecordUnlock(unlockKey);
      }
    }

    /** Append the key unless it is exactly present, storing the ledger when it grows. */
    method RecordUnlock(unlockKey: string) returns (outcome: ScanOutcome)
      requires Stored()
      modifies this`unlockedFeatures, this`saved
      ensures Stored()
      ensures unlockKey in old(unlockedFeatures) ==>
                outcome == AlreadyCollected && unlockedFeatures == old(unlockedFeatures) && saved == old(saved)
      ensures unlockKey !in old(unlockedFeatures) ==>
                && unlockedFeatures == old(unlockedFeatures) + [unlockKey]
                && outcome == NewlyCollected(|unlockedFeatures|)
                && saved == Some(unlockedFeatures)
    {
      if unlockKey !in unlockedFeatures {
        unlockedFeatures := unlockedFeatures + [unlockKey];
        saved := Some(unlockedFeatures);
        outcome := NewlyCollected(|unlockedFeatures|);
      } else {
        outcome := AlreadyCollected;
      }
    }

    /** Dismiss the result dialog and resume the scanner if there is one. */
    method CloseScanResult()
      requires Valid()
      modifies this`resultOpen, this`scanner
      ensures Valid()
      ensures !resultOpen
      ensures scanner == if old(scanner) == Stopped then Stopped else Running
    {
      resultOpen := false;
      if scanner != Stopped {
        scanner := Running;
      }
    }

    /** A page reload: the session starts over from the stored ledger. */
    method Reload()
      requires HomeScreen in screens
      modifies this
      ensures Valid()
      ensures NavState() == Initial && shown == Some(HomeScreen) && !menuHidden
      ensures unlockedFeatures == Load(old(saved)) && saved == old(saved)
      ensures scanner == Stopped && !resultOpen && currentAudio == None
      ensures activeModelIndex == 0 && models.Length == 0
    {
      currentScreen := HomeScreen;
      screenHistory := [HomeScreen];
      shown := Some(HomeScreen);
      menuHidden := false;
      scanner := Stopped;
      resultOpen := false;
      unlockedFeatures := Load(saved);
      activeModelIndex := 0;
      models := new bool[0];
      currentAudio := None;
    }

    /** Debug bulk unlock: add each exhibit's model and sound keys that are missing, store, reload. */
    method UnlockAll()
      requires Valid()
      modifies this
      ensures Valid()
      ensures unlockedFeatures == UnlockAllKeys(old(unlockedFeatures), FEATURES)
      ensures saved == Some(unlockedFeatures)
      ensures NavState() == Initial && shown == Some(HomeScreen) && !menuHidden
      ensures scanner == Stopped && !resultOpen && currentAudio == None
      ensures activeModelIndex == 0 && models.Length == 0
    {
      var keys := AddChannelKeys(unlockedFeatures, FEATURES);
      unlockedFeatures := keys;
      saved := Some(unlockedFeatures);
      Reload();
    }

    /** Debug reset: clear the ledger, remove the stored entry, reload. */
    method ResetProgress()
      requires Valid()
      modifies this
      ensures Valid()
      ensures unlockedFeatures == [] && saved == None
      ensures NavState() == Initial && shown == Some(HomeScreen) && !menuHidden
      ensures scanner == Stopped && !resultOpen && currentAudio == None
      ensures activeModelIndex == 0 && models.Length == 0
    {
      unlockedFeatures := [];
      saved := None;
      Reload();
    }

    /** Register one model per exhibit, only the first visible. */
    method LoadModels()
      modifies this`models
      ensures fresh(models) && models.Length == |FEATURES|
      ensures forall i :: 0 <= i < models.Length ==> models[i] == (i == 0)
    {
      var visible := new bool[|FEATURES|];
      for i := 0 to visible.Length
        invariant forall j :: 0 <= j < i ==> visible[j] == (j == 0)
      {
        visible[i] := i == 0;
      }
      models := visible;
    }

    /** Show the model at `index` and hide every other one. */
    method SwitchModel(index: int)
      modifies this`activeModelIndex, models
      ensures activeModelIndex == index
      ensures forall i :: 0 <= i < models.Length ==> models[i] == (i == index)
    {
      activeModelIndex := index;
      for i := 0 to models.Length
        invariant activeModelIndex == index
        invariant forall j :: 0 <= j < i ==> models[j] == (j == index)
      {
        models[i] := i == index;
      }
    }

    /** Stop whatever sound plays and start the one of a catalog exhibit; an unknown id changes nothing. */
    method PlaySound(featureId: string)
      modifies this`currentAudio
      ensures currentAudio == if Find(FEATURES, featureId).Some? then Some(featureId) else old(currentAudio)
    {
      var feature := Find(FEATURES, featureId);
      if feature.None? {
        return;
      }
      currentAudio := Some(featureId);
    }

    /** The playing sound finished: the slot is empty. */
    method OnAudioEnded()
      modifies this`currentAudio
      ensures currentAudio == None
    {
      currentAudio := None;
    }

    // ----- screen presenters: read the ledger, change nothing -----

    /** The collection grid: one card per item, its unlocked flag, the count and the rounded percentage. */
    method UpdateCollectionScreen() returns (cards: seq<Card>, totalUnlocked: nat, totalPossible: nat, percentage: nat)
      ensures totalPossible == TotalItems && |cards| == totalPossible
      ensures forall i :: 0 <= i < |cards| ==>
                cards[i].item == Expand(FEATURES)[i] && (cards[i].isUnlocked <==> Unlocked(unlockedFeatures, cards[i].item))
      ensures totalUnlocked == CollectionUnlocked(unlockedFeatures) && totalUnlocked <= totalPossible
      ensures percentage == RoundPercent(totalUnlocked, totalPossible)
    {
      cards := [];
      for i := 0 to |FEATURES|
        invariant |cards| == 2 * i
        invariant forall j :: 0 <= j < |cards| ==>
                    cards[j].item == Expand(FEATURES)[j] && (cards[j].isUnlocked <==> Unlocked(unlockedFeatures, cards[j].item))
      {
        var f := FEATURES[i];
        var model := Item(f, Model);
        var sound := Item(f, Sound);
        cards := cards + [Card(model, Unlocked(unlockedFeatures, model)), Card(sound, Unlocked(unlockedFeatures, sound))];
      }
      totalPossible := |cards|;
      CountFlaggedIsCountUnlocked(unlockedFeatures, cards, Expand(FEATURES));
      totalUnlocked := CountFlagged(cards);
      percentage := RoundPercent(totalUnlocked, totalPossible);
    }

    /** The route: the waypoints, how many are completed, the rounded progress and the active waypoint. */
    method UpdateRouteScreen() returns (waypoints: seq<Item>, completedCount: nat, progress: nat, activeIndex: int)
      ensures waypoints == Expand(FEATURES)
      ensures completedCount == CollectionUnlocked(unlockedFeatures)
      ensures progress == RoundPercent(completedCount, |waypoints|)
      ensures -1 <= activeIndex < |waypoints|
      ensures activeIndex == -1 <==> forall i :: 0 <= i < |waypoints| ==> Unlocked(unlockedFeatures, waypoints[i])
      ensures 0 <= activeIndex ==>
                && !Unlocked(unlockedFeatures, waypoints[activeIndex])
                && forall j :: 0 <= j < activeIndex ==> Unlocked(unlockedFeatures, waypoints[j])
    {
      waypoints := [];
      for i := 0 to |FEATURES|
        invariant waypoints == Expand(FEATURES[..i])
      {
        assert FEATURES[..i + 1][..i] == FEATURES[..i];
        waypoints := waypoints + [Item(FEATURES[i], Model), Item(FEATURES[i], Sound)];
      }
      assert FEATURES[..|FEATURES|] == FEATURES;
      completedCount := CountUnlocked(unlockedFeatures, waypoints);
      progress := RoundPercent(completedCount, |waypoints|);
      activeIndex := FirstIncomplete(unlockedFeatures, waypoints);
    }

    /** The home screen: the raw number of ledger keys and the badges of the first three exhibits. */
    method UpdateHomeScreen() returns (totalUnlocked: nat, badges: seq<bool>)
      ensures totalUnlocked == |unlockedFeatures|
      ensures |badges| == PreviewSize && badges == HomePreview(unlockedFeatures, FEATURES)
      ensures forall i :: 0 <= i < PreviewSize ==>
                (badges[i] <==>
                   ChannelKey(FEATURES[i].id, ModelKind) in unlockedFeatures || ChannelKey(FEATURES[i].id, SoundKind) in unlockedFeatures)
    {
      totalUnlocked := |unlockedFeatures|;
      badges := HomePreview(unlockedFeatures, FEATURES);
    }
  }

  /** `unlockAll`'s loop: for each exhibit in order, add its model key and then its sound key unless present. */
  method AddChannelKeys(ledger: seq<string>, fs: seq<Feature>) returns (keys: seq<string>)
    ensures keys == UnlockAllKeys(ledger, fs)
  {
    keys := ledger;
    for i := 0 to |fs|
      invariant keys == UnlockAllKeys(ledger, fs[..i])
    {
      var f := fs[i];
      UnlockAllKeysStep(ledger, fs, i);
      if ChannelKey(f.id, ModelKind) !in keys {
        keys := keys + [ChannelKey(f.id, ModelKind)];
      }
      if ChannelKey(f.id, SoundKind) !in keys {
        keys := keys + [ChannelKey(f.id, SoundKind)];
      }
    }
    assert fs[..|fs|] == fs;
  }

  /** The QR scanner runs only on the scanner screen, along `home -> scanner -> ar -> home`; the menu is hidden exactly on `scanner` and `ar`. */
  method ScannerToArScenario(app: AppState)
    requires app.Valid() && app.currentScreen == HomeScreen
    requires {ScannerScreen, ArScreen} <= app.screens
    modifies app
    ensures app.Valid() && app.currentScreen == HomeScreen && !app.menuHidden && app.scanner == Stopped
  {
    app.NavigateTo(ScannerScreen);
    assert app.menuHidden && app.scanner == Running;
    app.NavigateTo(ArScreen);
    assert app.menuHidden && app.scanner == Stopped;
    app.NavigateTo(HomeScreen);
  }
}
