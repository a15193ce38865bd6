/**
 * The modal viewer of scripts/main.js: a static table of named, ordered
 * lists of modal ids, cyclic next/previous within the list that holds the
 * open modal, and the one piece of state `currentModalId`, changed by
 * opening, closing, the navigation buttons, the arrow keys and swipes.
 *
 * The modal bodies are opaque; only the set of ids that have content
 * matters. `null` is `None`.
 */
module Navigator {
  import opened Wrappers
  import opened Sequences

  /** One entry of `modalSequences`: its name and its ordered modal ids. */
  datatype Sequence = Sequence(name: string, modals: seq<string>)

  /** `modalSequences`, in declaration order. */
  const ModalSequences: seq<Sequence> := [
    Sequence("introduction", ["project-overview", "goals-objectives", "need-assessment"]),
    Sequence("weekly", ["week1", "week2", "week3", "week4", "week5", "week6", "week7", "week8"]),
    Sequence("sdg", ["sdg3", "sdg4"]),
    Sequence("impact", ["community-impact", "personal-impact"]),
    Sequence("challenges", ["challenges", "feedback"]),
    Sequence("suggestions", ["suggestions-prcs", "suggestions-community"])
  ]

  /** The keys of `modalContent`. */
  const ModalContentIds: set<string> := {
    "project-overview", "goals-objectives", "need-assessment", "sdg3", "sdg4",
    "community-impact", "personal-impact", "challenges", "feedback",
    "suggestions-prcs", "suggestions-community",
    "week1", "week2", "week3", "week4", "week5", "week6", "week7", "week8"
  }

  /**
   * Every list is non-empty, without duplicates and without the empty id
   * (which the navigation handlers would skip as falsy), and no id is in
   * two lists.
   */
  ghost predicate WellFormedCatalog(catalog: seq<Sequence>)
  {
    && (forall a :: 0 <= a < |catalog| ==> |catalog[a].modals| > 0 && Distinct(catalog[a].modals) && "" !in catalog[a].modals)
    && (forall a, b, id :: 0 <= a < b < |catalog| && id in catalog[a].modals ==> id !in catalog[b].modals)
  }

  /**
   * `findModalSequence`: the first list, in declaration order, that holds
   * the id; none for an id in no list and for `null`.
   */
  function FindModalSequence(catalog: seq<Sequence>, id: Option<string>): (r: Option<Sequence>)
    ensures r.None? <==> id.None? || forall s :: s in catalog ==> id.value !in s.modals
    ensures r.Some? ==> id.Some? && r.value in catalog && id.value in r.value.modals
  {
    if catalog == [] then None
    else if id.Some? && id.value in catalog[0].modals then Some(catalog[0])
    else FindModalSequence(catalog[1..], id)
  }

  /** In a well-formed catalog the list found is the one list that holds the id. */
  lemma {:induction false} FindModalSequenceUnique(catalog: seq<Sequence>, a: nat, id: string)
    requires WellFormedCatalog(catalog) && a < |catalog| && id in catalog[a].modals
    ensures FindModalSequence(catalog, Some(id)) == Some(catalog[a])
  {
    if a > 0 {
      assert id !in catalog[0].modals;
      assert WellFormedCatalog(catalog[1..]) by {
        forall x, y, i | 0 <= x < y < |catalog[1..]| && i in catalog[1..][x].modals
          ensures i !in catalog[1..][y].modals
        {
          assert catalog[1..][x] == catalog[x + 1] && catalog[1..][y] == catalog[y + 1];
        }
      }
      FindModalSequenceUnique(catalog[1..], a - 1, id);
    }
  }

  /**
   * `getNextModal`: the id after this one in its list, wrapping from the
   * last to the first; none when the id is in no list.
   */
  function GetNextModal(catalog: seq<Sequence>, id: Option<string>): (r: Option<string>)
    ensures r.None? <==> FindModalSequence(catalog, id).None?
    ensures r.Some? ==> r.value in FindModalSequence(catalog, id).value.modals
  {
    match FindModalSequence(catalog, id)
    case None => None
    case Some(sequence) =>
      var currentIndex := IndexOf(sequence.modals, id.value);
      if currentIndex < |sequence.modals| - 1 then Some(sequence.modals[currentIndex + 1])
      else Some(sequence.modals[0])
  }

  /**
   * `getPrevModal`: the id before this one in its list, wrapping from the
   * first to the last; none when the id is in no list.
   */
  function GetPrevModal(catalog: seq<Sequence>, id: Option<string>): (r: Option<string>)
    ensures r.None? <==> FindModalSequence(catalog, id).None?
    ensures r.Some? ==> r.value in FindModalSequence(catalog, id).value.modals
  {
    match FindModalSequence(catalog, id)
    case None => None
    case Some(sequence) =>
      var currentIndex := IndexOf(sequence.modals, id.value);
      if currentIndex > 0 then Some(sequence.modals[currentIndex - 1])
      else Some(sequence.modals[|sequence.modals| - 1])
  }

  /**
   * Next and previous are the cyclic successor and predecessor in the
   * list found: the positions one on and one back, modulo its length.
   */
  lemma NeighboursAreCyclic(catalog: seq<Sequence>, id: string)
    requires FindModalSequence(catalog, Some(id)).Some?
    ensures var s := FindModalSequence(catalog, Some(id)).value.modals;
            && GetNextModal(catalog, Some(id)) == Some(s[(IndexOf(s, id) + 1) % |s|])
            && GetPrevModal(catalog, Some(id)) == Some(s[(IndexOf(s, id) - 1) % |s|])
  {
    var s := FindModalSequence(catalog, Some(id)).value.modals;
    ModSucc(IndexOf(s, id), |s|);
    ModPred(IndexOf(s, id), |s|);
  }

  /** Next and previous of the id at position `i` of list `a`, by position. */
  lemma NeighboursByPosition(catalog: seq<Sequence>, a: nat, i: nat)
    requires WellFormedCatalog(catalog) && a < |catalog| && i < |catalog[a].modals|
    ensures var s := catalog[a].modals;
            GetNextModal(catalog, Some(s[i])) == Some(s[if i < |s| - 1 then i + 1 else 0]) &&
            GetPrevModal(catalog, Some(s[i])) == Some(s[if i > 0 then i - 1 else |s| - 1])
  {
    FindModalSequenceUnique(catalog, a, catalog[a].modals[i]);
    IndexOfDistinct(catalog[a].modals, i);
  }

  /** Next then previous, and previous then next, give back the id. */
  lemma NextPrevRoundTrip(catalog: seq<Sequence>, a: nat, id: string)
    requires WellFormedCatalog(catalog) && a < |catalog| && id in catalog[a].modals
    ensures GetPrevModal(catalog, GetNextModal(catalog, Some(id))) == Some(id)
    ensures GetNextModal(catalog, GetPrevModal(catalog, Some(id))) == Some(id)
  {
    var s := catalog[a].modals;
    var i := IndexOf(s, id);
    var n := |s|;
    var next, prev := if i < n - 1 then i + 1 else 0, if i > 0 then i - 1 else n - 1;
    NeighboursByPosition(catalog, a, i);
    NeighboursByPosition(catalog, a, next);
    assert (if next > 0 then next - 1 else n - 1) == i;
    NeighboursByPosition(catalog, a, prev);
    assert (if prev < n - 1 then prev + 1 else 0) == i;
  }

  /** `k` applications of `step`, starting from `id`. */
  function Iterate(step: Option<string> -> Option<string>, id: Option<string>, k: nat): Option<string>
  {
    if k == 0 then id else step(Iterate(step, id, k - 1))
  }

  /** `k` presses of "next", starting from `id`. */
  function NextN(catalog: seq<Sequence>, id: Option<string>, k: nat): Option<string>
  {
    Iterate(x => GetNextModal(catalog, x), id, k)
  }

  /** A position at most one turn past the end of a list of length `n`, brought back into it. */
  function Wrap(p: int, n: int): int
  {
    if p < n then p else p - n
  }

  /** `step` moves through `s` one place at a time, from the last back to the first. */
  ghost predicate StepsThrough(step: Option<string> -> Option<string>, s: seq<string>)
  {
    forall j :: 0 <= j < |s| ==> step(Some(s[j])) == Some(s[Wrap(j + 1, |s|)])
  }

  /** In a well-formed catalog, "next" steps through each list. */
  lemma ListsAreSteppedThrough(catalog: seq<Sequence>, a: nat)
    requires WellFormedCatalog(catalog) && a < |catalog|
    ensures StepsThrough(x => GetNextModal(catalog, x), catalog[a].modals)
  {
    forall j | 0 <= j < |catalog[a].modals|
      ensures GetNextModal(catalog, Some(catalog[a].modals[j])) == Some(catalog[a].modals[Wrap(j + 1, |catalog[a].modals|)])
    {
      NeighboursByPosition(catalog, a, j);
    }
  }

  /** Along a list that `step` moves through, `k` steps move `k` places on, for `k` up to one full turn. */
  lemma {:induction false} IterateAlong(step: Option<string> -> Option<string>, s: seq<string>, i: nat, k: nat)
    requires StepsThrough(step, s) && i < |s| && k <= |s|
    ensures 0 <= Wrap(i + k, |s|) < |s| && Iterate(step, Some(s[i]), k) == Some(s[Wrap(i + k, |s|)])
  {
    if k > 0 {
      IterateAlong(step, s, i, k - 1);
      assert Wrap(Wrap(i + k - 1, |s|) + 1, |s|) == Wrap(i + k, |s|);
    }
  }

  /** After `k` presses of "next", for `k` up to one full turn, the id `k` places on, cyclically. */
  lemma NextNAdvances(catalog: seq<Sequence>, a: nat, i: nat, k: nat)
    requires WellFormedCatalog(catalog) && a < |catalog| && i < |catalog[a].modals| && k <= |catalog[a].modals|
    ensures var s := catalog[a].modals;
            0 <= Wrap(i + k, |s|) < |s| && NextN(catalog, Some(s[i]), k) == Some(s[Wrap(i + k, |s|)])
  {
    ListsAreSteppedThrough(catalog, a);
    IterateAlong(x => GetNextModal(catalog, x), catalog[a].modals, i, k);
  }

  /** Pressing "next" as many times as the list is long comes back to the start. */
  lemma NextCycleReturns(catalog: seq<Sequence>, a: nat, id: string)
    requires WellFormedCatalog(catalog) && a < |catalog| && id in catalog[a].modals
    ensures NextN(catalog, Some(id), |catalog[a].modals|) == Some(id)
  {
    NextNAdvances(catalog, a, IndexOf(catalog[a].modals, id), |catalog[a].modals|);
  }

  /**
   * The position in `modalSequences` of the list that holds a shipped id,
   * told from the id's first letter and length alone.
   */
  function Owner(id: string): int
  {
    if id == [] then -1
    else match id[0]
      case 'g' => 0
      case 'n' => 0
      case 'p' => if |id| == 16 then 0 else 3
      case 'w' => 1
      case 'c' => if |id| == 16 then 3 else 4
      case 'f' => 4
      case 's' => if |id| == 4 then 2 else 5
      case _ => -1
  }

  /** Each shipped list is non-empty, without duplicates and without the empty id. */
  lemma ShippedListDistinct(a: nat)
    requires a < |ModalSequences|
    ensures |ModalSequences[a].modals| > 0 && Distinct(ModalSequences[a].modals) && "" !in ModalSequences[a].modals
  {
    var m := ModalSequences[a].modals;
    if a == 1 {
      forall i, j | 0 <= i < j < |m| ensures m[i] != m[j] {
        assert m[i][4] != m[j][4];
      }
    }
  }

  lemma ShippedListOwned(a: nat)
    requires a < |ModalSequences|
    ensures forall id :: id in ModalSequences[a].modals ==> Owner(id) == a
  {
    // One case per list, so that each is checked against its own literal.
    if a == 0 {
    } else if a == 1 {
    } else if a == 2 {
    } else if a == 3 {
    } else if a == 4 {
    }
  }

  lemma ShippedListHasContent(a: nat)
    requires a < |ModalSequences|
    ensures forall id :: id in ModalSequences[a].modals ==> id in ModalContentIds
  {
  }

  /** The shipped table is well formed, and every id in it has content. */
  lemma ModalSequencesWellFormed()
    ensures WellFormedCatalog(ModalSequences)
    ensures forall s, id :: s in ModalSequences && id in s.modals ==> id in ModalContentIds
  {
    forall a | 0 <= a < |ModalSequences| { ShippedListDistinct(a); }
    forall a | 0 <= a < |ModalSequences| { ShippedListOwned(a); }
    forall a | 0 <= a < |ModalSequences| { ShippedListHasContent(a); }
  }

  // ---------------------------------------------------------------------
  // The open modal and the events that change it
  // ---------------------------------------------------------------------

  /** `e.key` as far as the keydown handlers distinguish it. */
  datatype Key = Escape | ArrowRight | ArrowLeft | OtherKey

  /**
   * What the modal overlay shows: `current` is `currentModalId`, `body` the
   * id whose content was last written into the modal body, `active` the
   * overlay's `active` class, `navShown` whether the prev/next buttons have
   * been un-hidden.
   */
  datatype Modal = Modal(current: Option<string>, body: Option<string>, active: bool, navShown: bool)

  /** The pixel distance a swipe must exceed to count. */
  const SwipeThreshold: int := 50

  /** `openModal`: only an id with content is opened; any other id changes nothing. */
  function Open(content: set<string>, m: Modal, id: string): (r: Modal)
    ensures Consistent(content, m) ==> Consistent(content, r)
    ensures r != m ==> id in content && r.current == Some(id) && r.active
  {
    if id in content then Modal(Some(id), Some(id), true, true) else m
  }

  /** `closeModal`: the overlay goes inactive and no modal is current; the body is left as it was. */
  function Close(m: Modal): (r: Modal)
    ensures r.current.None? && forall content :: Consistent(content, r)
  {
    Modal(None, m.body, false, m.navShown)
  }

  /** `navigateNext`: open the next id in the current list, if there is one and it is not the falsy empty id. */
  function NavigateNext(catalog: seq<Sequence>, content: set<string>, m: Modal): (r: Modal)
    ensures Consistent(content, m) ==> Consistent(content, r)
    ensures r != m ==> r.current == GetNextModal(catalog, m.current) && r.active
  {
    match GetNextModal(catalog, m.current)
    case None => m
    case Some(next) => if next != "" then Open(content, m, next) else m
  }

  /** `navigatePrev`: open the previous id in the current list, if there is one and it is not the falsy empty id. */
  function NavigatePrev(catalog: seq<Sequence>, content: set<string>, m: Modal): (r: Modal)
    ensures Consistent(content, m) ==> Consistent(content, r)
    ensures r != m ==> r.current == GetPrevModal(catalog, m.current) && r.active
  {
    match GetPrevModal(catalog, m.current)
    case None => m
    case Some(prev) => if prev != "" then Open(content, m, prev) else m
  }

  /** `handleSwipe`: a leftward swipe longer than the threshold goes on, a rightward one goes back. */
  function HandleSwipe(catalog: seq<Sequence>, content: set<string>, m: Modal, touchStartX: int, touchEndX: int): (r: Modal)
    ensures Consistent(content, m) ==> Consistent(content, r)
    ensures r == m || r == NavigateNext(catalog, content, m) || r == NavigatePrev(catalog, content, m)
  {
    var diff := touchStartX - touchEndX;
    if diff > SwipeThreshold || -diff > SwipeThreshold then
      if diff > 0 then NavigateNext(catalog, content, m) else NavigatePrev(catalog, content, m)
    else m
  }

  /** The document keydown handler of the modal overlay, which acts only while the overlay is active. */
  function KeyDown(catalog: seq<Sequence>, content: set<string>, m: Modal, key: Key): (r: Modal)
    ensures Consistent(content, m) ==> Consistent(content, r)
    ensures !m.active ==> r == m
  {
    if !m.active then m
    else match key
      case Escape => Close(m)
      case ArrowRight => NavigateNext(catalog, content, m)
      case ArrowLeft => NavigatePrev(catalog, content, m)
      case OtherKey => m
  }

  /** The state on page load: nothing open. */
  const Initial: Modal := Modal(None, None, false, false)

  /**
   * What every reachable state satisfies: the overlay is active exactly when
   * a modal is current, and then that modal has content and is the one in
   * the body with the buttons shown.
   */
  ghost predicate Consistent(content: set<string>, m: Modal)
  {
    && (m.active <==> m.current.Some?)
    && (m.current.Some? ==> m.current.value in content && m.body == m.current && m.navShown)
  }

  /** Opening an id with content makes it current; any other id leaves the state as it was. */
  lemma OpenOnlyWithContent(content: set<string>, m: Modal, id: string)
    ensures Open(content, m, id).current == Some(id) <==> id in content || m.current == Some(id)
    ensures id !in content ==> Open(content, m, id) == m
    ensures id in content ==> Open(content, m, id).active && Open(content, m, id).body == Some(id)
  {
  }

  /** The initial state is consistent, and every event keeps a state consistent. */
  lemma EventsKeepConsistent(catalog: seq<Sequence>, content: set<string>, m: Modal, id: string,
                             touchStartX: int, touchEndX: int, key: Key)
    requires Consistent(content, m)
    ensures Consistent(content, Initial)
    ensures Consistent(content, Open(content, m, id))
    ensures Consistent(content, Close(m))
    ensures Consistent(content, NavigateNext(catalog, content, m))
    ensures Consistent(content, NavigatePrev(catalog, content, m))
    ensures Consistent(content, HandleSwipe(catalog, content, m, touchStartX, touchEndX))
    ensures Consistent(content, KeyDown(catalog, content, m, key))
  {
  }

  /** With no current modal, or one in no list, navigation changes nothing. */
  lemma NavigateOutsideListsIsNoOp(catalog: seq<Sequence>, content: set<string>, m: Modal)
    requires m.current.None? || forall s :: s in catalog ==> m.current.value !in s.modals
    ensures NavigateNext(catalog, content, m) == m
    ensures NavigatePrev(catalog, content, m) == m
  {
  }

  /** After closing, navigation, swipes and keys change nothing until a modal is opened again. */
  lemma ClosedIgnoresNavigation(catalog: seq<Sequence>, content: set<string>, m: Modal,
                                touchStartX: int, touchEndX: int, key: Key)
    ensures Close(m).current.None? && !Close(m).active
    ensures NavigateNext(catalog, content, Close(m)) == Close(m)
    ensures NavigatePrev(catalog, content, Close(m)) == Close(m)
    ensures HandleSwipe(catalog, content, Close(m), touchStartX, touchEndX) == Close(m)
    ensures KeyDown(catalog, content, Close(m), key) == Close(m)
  {
    NavigateOutsideListsIsNoOp(catalog, content, Close(m));
  }

  /** The swipe rule by cases of `diff = touchStartX - touchEndX`. */
  lemma SwipeCases(catalog: seq<Sequence>, content: set<string>, m: Modal, touchStartX: int, touchEndX: int)
    ensures -50 <= touchStartX - touchEndX <= 50 ==> HandleSwipe(catalog, content, m, touchStartX, touchEndX) == m
    ensures touchStartX - touchEndX > 50 ==>
              HandleSwipe(catalog, content, m, touchStartX, touchEndX) == NavigateNext(catalog, content, m)
    ensures touchStartX - touchEndX < -50 ==>
              HandleSwipe(catalog, content, m, touchStartX, touchEndX) == NavigatePrev(catalog, content, m)
  {
  }

  /** While the overlay is inactive, no key does anything; while active, the three keys map to their actions. */
  lemma KeysOnlyWhileActive(catalog: seq<Sequence>, content: set<string>, m: Modal, key: Key)
    ensures !m.active ==> KeyDown(catalog, content, m, key) == m
    ensures m.active ==>
              && KeyDown(catalog, content, m, Escape) == Close(m)
              && KeyDown(catalog, content, m, ArrowRight) == NavigateNext(catalog, content, m)
              && KeyDown(catalog, content, m, ArrowLeft) == NavigatePrev(catalog, content, m)
              && KeyDown(catalog, content, m, OtherKey) == m
  {
  }

  /** Every id of every list has content. */
  ghost predicate Covered(catalog: seq<Sequence>, content: set<string>)
  {
    forall s, id :: s in catalog && id in s.modals ==> id in content
  }

  /**
   * With a modal of list `a` open and every listed id having content,
   * "next" and "previous" move to the neighbour ids of that list and the
   * overlay stays open on them.
   */
  lemma NavigateMovesWithinList(catalog: seq<Sequence>, content: set<string>, m: Modal, a: nat)
    requires WellFormedCatalog(catalog) && Covered(catalog, content) && Consistent(content, m)
    requires a < |catalog| && m.current.Some? && m.current.value in catalog[a].modals
    ensures var s := catalog[a].modals;
            var i := IndexOf(s, m.current.value);
            var n := NavigateNext(catalog, content, m);
            var p := NavigatePrev(catalog, content, m);
            && n.current == Some(s[if i < |s| - 1 then i + 1 else 0]) && n.body == n.current && n.active
            && p.current == Some(s[if i > 0 then i - 1 else |s| - 1]) && p.body == p.current && p.active
  {
    var s := catalog[a].modals;
    var i := IndexOf(s, m.current.value);
    NeighboursByPosition(catalog, a, i);
  }

  /** Going on and then back (by button, arrow key or swipe) returns to the same open modal. */
  lemma NavigateRoundTrip(catalog: seq<Sequence>, content: set<string>, m: Modal, a: nat)
    requires WellFormedCatalog(catalog) && Covered(catalog, content) && Consistent(content, m)
    requires a < |catalog| && m.current.Some? && m.current.value in catalog[a].modals
    ensures NavigatePrev(catalog, content, NavigateNext(catalog, content, m)) == m
    ensures NavigateNext(catalog, content, NavigatePrev(catalog, content, m)) == m
  {
    NextPrevRoundTrip(catalog, a, m.current.value);
    NavigateMovesWithinList(catalog, content, m, a);
  }

  /** The shipped table, with the shipped content, is covered. */
  lemma ShippedCatalogCovered()
    ensures WellFormedCatalog(ModalSequences) && Covered(ModalSequences, ModalContentIds)
  {
    ModalSequencesWellFormed();
  }

  /**
   * The modal overlay of the page: the shipped table and content ids, the
   * current modal and what the overlay shows, and the last touch
   * coordinates.
   */
  class ModalNavigator {
    const catalog: seq<Sequence>
    const content: set<string>
    var currentModalId: Option<string>
    var body: Option<string>
    var overlayActive: bool
    var navShown: bool
    var touchStartX: int
    var touchEndX: int

    /** The overlay's state as a value. */
    function State(): Modal
      reads this
    {
      Modal(currentModalId, body, overlayActive, navShown)
    }

    ghost predicate Valid()
      reads this
    {
      Consistent(content, State())
    }

    /** Page load: the shipped table, nothing open, both touch coordinates 0. */
    constructor()
      ensures catalog == ModalSequences && content == ModalContentIds
      ensures State() == Initial && Valid()
      ensures touchStartX == 0 && touchEndX == 0
    {
      catalog := ModalSequences;
      content := ModalContentIds;
      currentModalId := None;
      body := None;
      overlayActive := false;
      navShown := false;
      touchStartX := 0;
      touchEndX := 0;
    }

    /** `openModal(modalId)`. */
    method OpenModal(modalId: string)
      requires Valid()
      modifies this
      ensures Valid()
      ensures State() == Open(content, old(State()), modalId)
      ensures touchStartX == old(touchStartX) && touchEndX == old(touchEndX)
    {
      if modalId in content {
        currentModalId := Some(modalId);
        body := Some(modalId);
        overlayActive := true;
        navShown := true;
      }
    }

    /** `closeModal()`. */
    method CloseModal()
      requires Valid()
      modifies this
      ensures Valid()
      ensures State() == Close(old(State()))
      ensures touchStartX == old(touchStartX) && touchEndX == old(touchEndX)
    {
      overlayActive := false;
      currentModalId := None;
    }

    /** `navigateNext()`. */
    method NavigateNextModal()
      requires Valid()
      modifies this
      ensures Valid()
      ensures State() == NavigateNext(catalog, content, old(State()))
      ensures touchStartX == old(touchStartX) && touchEndX == old(touchEndX)
    {
      var nextModal := GetNextModal(catalog, currentModalId);
      if nextModal.Some? && nextModal.value != "" {
        OpenModal(nextModal.value);
      }
    }

    /** `navigatePrev()`. */
    method NavigatePrevModal()
      requires Valid()
      modifies this
      ensures Valid()
      ensures State() == NavigatePrev(catalog, content, old(State()))
      ensures touchStartX == old(touchStartX) && touchEndX == old(touchEndX)
    {
      var prevModal := GetPrevModal(catalog, currentModalId);
      if prevModal.Some? && prevModal.value != "" {
        OpenModal(prevModal.value);
      }
    }

    /** A click on a card: its `data-modal` attribute, when present and non-empty, is opened. */
    method ClickCard(dataModal: Option<string>)
      requires Valid()
      modifies this
      ensures Valid()
      ensures State() == if dataModal.Some? && dataModal.value != "" then Open(content, old(State()), dataModal.value)
                         else old(State())
      ensures touchStartX == old(touchStartX) && touchEndX == old(touchEndX)
    {
      if dataModal.Some? && dataModal.value != "" {
        OpenModal(dataModal.value);
      }
    }

    /** The overlay's `touchstart` listener records the start coordinate. */
    method TouchStart(screenX: int)
      requires Valid()
      modifies this
      ensures Valid()
      ensures State() == old(State())
      ensures touchStartX == screenX && touchEndX == old(touchEndX)
    {
      touchStartX := screenX;
    }

    /** The overlay's `touchend` listener records the end coordinate and applies the swipe rule. */
    method TouchEnd(screenX: int)
      requires Valid()
      modifies this
      ensures Valid()
      ensures State() == HandleSwipe(catalog, content, old(State()), old(touchStartX), screenX)
      ensures touchStartX == old(touchStartX) && touchEndX == screenX
    {
      touchEndX := screenX;
      var diff := touchStartX - touchEndX;
      if diff > SwipeThreshold || -diff > SwipeThreshold {
        if diff > 0 {
          NavigateNextModal();
        } else {
          NavigatePrevModal();
        }
      }
    }

    /** The document `keydown` listener of the modal overlay. */
    method KeyPressed(key: Key)
      requires Valid()
      modifies this
      ensures Valid()
      ensures State() == KeyDown(catalog, content, old(State()), key)
      ensures touchStartX == old(touchStartX) && touchEndX == old(touchEndX)
    {
      if overlayActive {
        match key
        case Escape => CloseModal();
        case ArrowRight => NavigateNextModal();
        case ArrowLeft => NavigatePrevModal();
        case OtherKey =>
      }
    }
  }
}
