/**
 * The navigation state machine: the current screen and the back-stack of
 * screens visited. Screens are identified by their ids; a transition needs
 * a screen element for its target.
 */
module Navigation {

  const HomeScreen := "home"
  const ScannerScreen := "scanner"
  const ArScreen := "ar"

  datatype Nav = Nav(current: string, history: seq<string>)

  /** Start of the page: on `home`, with `home` as the only history entry. */
  const Initial := Nav(HomeScreen, [HomeScreen])

  /** A history that starts at home, is never empty, and names only existing screens. */
  predicate Wellformed(n: Nav, screens: set<string>)
  {
    && |n.history| >= 1
    && n.history[0] == HomeScreen
    && forall i :: 0 <= i < |n.history| ==> n.history[i] in screens
  }

  /** Wellformed, and the top of the history is the current screen. */
  predicate Valid(n: Nav, screens: set<string>)
  {
    Wellformed(n, screens) && n.history[|n.history| - 1] == n.current
  }

  /** The floating menu is hidden on the AR screen and the scanner screen only. */
  predicate HidesMenu(target: string)
  {
    target == ArScreen || target == ScannerScreen
  }

  /** `navigateTo`'s effect on the navigation state: push and switch only to an existing, different screen. */
  function Navigate(n: Nav, target: string, screens: set<string>): Nav
  {
    if target in screens && target != n.current then Nav(target, n.history + [target]) else n
  }

  /** `goBack` as written: pop one entry, then `navigateTo` the new top, which pushes it again when it differs from the current screen. */
  function BackAsWritten(n: Nav, screens: set<string>): Nav
    requires |n.history| >= 1
  {
    if |n.history| > 1 then
      var popped := n.history[..|n.history| - 1];
      Navigate(Nav(n.current, popped), popped[|popped| - 1], screens)
    else n
  }

  /** `goBack` as intended: pop one entry and show the new top without pushing it again. */
  function Back(n: Nav): Nav
    requires |n.history| >= 1
  {
    if |n.history| > 1 then
      var popped := n.history[..|n.history| - 1];
      Nav(popped[|popped| - 1], popped)
    else n
  }

  lemma InitialValid(screens: set<string>)
    requires HomeScreen in screens
    ensures Valid(Initial, screens)
  {
  }

  /**
   * A navigation changes the state exactly when the target exists and is not
   * the current screen; it then appends exactly the target and makes it
   * current. Validity is preserved.
   */
  lemma NavigateSpec(n: Nav, target: string, screens: set<string>)
    requires Valid(n, screens)
    ensures var r := Navigate(n, target, screens);
            && Valid(r, screens)
            && (r != n <==> target in screens && target != n.current)
            && (r != n ==> r.current == target && r.history == n.history + [target])
            && (target in screens ==> r.current == target)
  {
  }

  /** Both readings of going back keep the state valid: the history is never emptied. */
  lemma BackPreservesValid(n: Nav, screens: set<string>)
    requires Valid(n, screens)
    ensures Valid(BackAsWritten(n, screens), screens)
    ensures Valid(Back(n), screens)
  {
  }

  /** Going back from home alone does nothing. */
  lemma BackAtHomeIsNoOp(screens: set<string>)
    ensures BackAsWritten(Initial, screens) == Initial
    ensures Back(Initial) == Initial
  {
  }

  /** As written, going back never shortens the history when it leaves the current screen. */
  lemma BackAsWrittenRepushes(n: Nav, screens: set<string>)
    requires Valid(n, screens) && |n.history| > 1
    requires n.history[|n.history| - 2] != n.current
    ensures BackAsWritten(n, screens).history == n.history[..|n.history| - 1] + [n.history[|n.history| - 2]]
    ensures |BackAsWritten(n, screens).history| == |n.history|
  {
  }

  /**
   * As written: from `home -> collection -> route`, two back presses stay on
   * `collection` instead of reaching `home`, while the intended back reaches
   * `home`.
   */
  lemma BackAsWrittenStalls()
    ensures var screens := {HomeScreen, "collection", "route"};
            var n := Nav("route", [HomeScreen, "collection", "route"]);
            && Valid(n, screens)
            && BackAsWritten(BackAsWritten(n, screens), screens).current == "collection"
            && Back(Back(n)) == Nav(HomeScreen, [HomeScreen])
  {
    var screens := {HomeScreen, "collection", "route"};
    var n := Nav("route", [HomeScreen, "collection", "route"]);
    var once := BackAsWritten(n, screens);
    assert once == Nav("collection", [HomeScreen, "collection", "collection"]);
    assert BackAsWritten(once, screens) == Nav("collection", [HomeScreen, "collection"]);
  }

  /** The intended back undoes a navigation that moved: it restores the state before it. */
  lemma BackUndoesNavigate(n: Nav, target: string, screens: set<string>)
    requires Valid(n, screens) && target in screens && target != n.current
    ensures Back(Navigate(n, target, screens)) == n
  {
    var h := n.history + [target];
    assert h[..|h| - 1] == n.history;
  }
}
