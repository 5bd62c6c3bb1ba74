/** The `ModalManager` of modal.js without its DOM work: a two-slot stack
    made of `activeModal` and `_previousModal`, driven by show, hide,
    stacked show/hide, close and destroy. A modal type whose element is
    missing from the page is "unmounted"; most operations ignore it. */
module Modal {
  import opened Js

  datatype ModalType = FoodDetails | AddFood | ManageTags | AddCategory | Confirmation | EditFood | AddSubgroup

  /** `activeModal` and `_previousModal`; `None` stands for `null` (and for
      the `undefined` the previous slot starts with). */
  datatype ModalState = ModalState(active: Option<ModalType>, previous: Option<ModalType>)

  const Closed := ModalState(None, None)

  // ---------------------------------------------------------------------
  // The transitions, as functions of the state

  /** `hideModal(t)`: only the active modal can be hidden; then the previous
      modal, if any, comes back and the previous slot is cleared. */
  function Hide(s: ModalState, t: ModalType, mounted: set<ModalType>): ModalState
  {
    if t !in mounted || s.active != Some(t) then s
    else if s.previous.Some? then ModalState(s.previous, None)
    else ModalState(None, s.previous)
  }

  /** `closeActiveModal()`: hide whatever is active. */
  function CloseActive(s: ModalState, mounted: set<ModalType>): ModalState
  {
    if s.active.Some? then Hide(s, s.active.value, mounted) else s
  }

  /** Whether `showModal(t)` keeps the active modal open underneath: only
      the edit form over the food details does. */
  predicate EditOverDetails(active: Option<ModalType>, t: ModalType)
  {
    t == EditFood && active == Some(FoodDetails)
  }

  /** `showModal(t)`: close the active modal first unless the edit form
      opens over the food details; then, if `t` is mounted, remember the
      food details when the edit form opens over them and make `t`
      active. */
  function Show(s: ModalState, t: ModalType, mounted: set<ModalType>): ModalState
  {
    var c := if EditOverDetails(s.active, t) then s else CloseActive(s, mounted);
    if t !in mounted then c
    else if EditOverDetails(c.active, t) then ModalState(Some(t), c.active)
    else ModalState(Some(t), c.previous)
  }

  /** `showModalStacked(t)`: push the active modal into the previous slot. */
  function ShowStacked(s: ModalState, t: ModalType, mounted: set<ModalType>): ModalState
  {
    if t !in mounted then s else ModalState(Some(t), s.active)
  }

  /** `hideModalStacked(t)`: pop the previous slot, whichever modal is active. */
  function HideStacked(s: ModalState, t: ModalType, mounted: set<ModalType>): ModalState
  {
    if t !in mounted then s else ModalState(s.previous, None)
  }

  /** `destroy()`: nothing is active any more; the previous slot is left as
      it was. */
  function Destroyed(s: ModalState): ModalState
  {
    ModalState(None, s.previous)
  }

  /** The previous slot is only filled while some modal is active. */
  predicate Consistent(s: ModalState)
  {
    s.previous.Some? ==> s.active.Some?
  }

  // ---------------------------------------------------------------------
  // Properties of the transitions

  /** After showing a mounted modal it is the active one; an unmounted one
      only closes what was open (or, over the food details, nothing). */
  lemma ShowActivates(s: ModalState, t: ModalType, mounted: set<ModalType>)
    ensures t in mounted ==> Show(s, t, mounted).active == Some(t)
    ensures t !in mounted && !EditOverDetails(s.active, t) ==> Show(s, t, mounted) == CloseActive(s, mounted)
    ensures t !in mounted && EditOverDetails(s.active, t) ==> Show(s, t, mounted) == s
  {
  }

  /** Showing any other modal really closes the open one first: the result
      is the same as showing it once nothing is open. Only the edit form
      over the food details keeps them underneath. */
  lemma ShowClosesFirst(s: ModalState, t: ModalType, mounted: set<ModalType>)
    requires Consistent(s) && t in mounted && !EditOverDetails(s.active, t)
    requires s.active.Some? ==> s.active.value in mounted
    ensures Show(s, t, mounted) == ModalState(Some(t), if EditOverDetails(s.previous, t) then s.previous else None)
  {
  }

  /** Opening the edit form over the food details remembers them, and
      hiding the edit form brings them back. */
  lemma EditRestoresDetails(s: ModalState, mounted: set<ModalType>)
    requires s.active == Some(FoodDetails) && EditFood in mounted
    ensures Show(s, EditFood, mounted) == ModalState(Some(EditFood), Some(FoodDetails))
    ensures Hide(Show(s, EditFood, mounted), EditFood, mounted) == ModalState(Some(FoodDetails), None)
  {
  }

  /** A stacked show followed by a stacked hide of a mounted modal gives
      back the modal that was active, with an empty previous slot. */
  lemma StackedRoundTrip(s: ModalState, t: ModalType, mounted: set<ModalType>)
    requires t in mounted
    ensures HideStacked(ShowStacked(s, t, mounted), t, mounted) == ModalState(s.active, None)
    ensures s.previous.None? ==> HideStacked(ShowStacked(s, t, mounted), t, mounted) == s
  {
  }

  /** The calls the source ignores change no state: hiding a modal that is
      not the active one, and any operation on a modal whose element is
      missing. */
  lemma IgnoredCalls(s: ModalState, t: ModalType, mounted: set<ModalType>)
    ensures s.active != Some(t) ==> Hide(s, t, mounted) == s
    ensures t !in mounted ==>
      ShowStacked(s, t, mounted) == s && Hide(s, t, mounted) == s && HideStacked(s, t, mounted) == s
  {
  }

  /** Closing when nothing is open changes nothing; closing a mounted
      active modal leaves the previous one active and the previous slot
      empty. */
  lemma CloseActiveOutcome(s: ModalState, mounted: set<ModalType>)
    ensures s.active.None? ==> CloseActive(s, mounted) == s
    ensures s.active.Some? && s.active.value in mounted ==> CloseActive(s, mounted) == ModalState(s.previous, None)
  {
  }

  /** Every operation but `destroy` keeps the previous slot empty while
      nothing is active. */
  lemma TransitionsKeepConsistent(s: ModalState, t: ModalType, mounted: set<ModalType>)
    requires Consistent(s)
    ensures Consistent(Hide(s, t, mounted))
    ensures Consistent(CloseActive(s, mounted))
    ensures Consistent(Show(s, t, mounted))
    ensures Consistent(ShowStacked(s, t, mounted))
    ensures Consistent(HideStacked(s, t, mounted))
  {
  }

  /** `destroy` does not clear the previous slot, so it can leave a
      remembered modal behind while nothing is active. */
  lemma DestroyKeepsPrevious(s: ModalState)
    ensures !Destroyed(s).active.Some?
    ensures Destroyed(s).previous == s.previous
    ensures s.previous.Some? ==> !Consistent(Destroyed(s))
  {
  }

  // ---------------------------------------------------------------------
  // The manager object

  class ModalManager {
    var activeModal: Option<ModalType>
    var previousModal: Option<ModalType>
    /** The modal types whose element exists on the page. */
    const mounted: set<ModalType>

    function State(): ModalState
      reads this
    {
      ModalState(activeModal, previousModal)
    }

    /** `new ModalManager()`: nothing is open. */
    constructor (mounted: set<ModalType>)
      ensures State() == Closed && this.mounted == mounted
    {
      activeModal := None;
      previousModal := None;
      this.mounted := mounted;
    }

    /** `hideModal(modalType)` */
    method HideModal(t: ModalType)
      modifies this
      ensures State() == Hide(old(State()), t, mounted)
    {
      if t !in mounted {
        return;
      }
      if activeModal == Some(t) {
        if previousModal.Some? {
          activeModal := previousModal;
          previousModal := None;
        } else {
          activeModal := None;
        }
      }
    }

    /** `closeModal(modalType)`, which the overlays call. */
    method CloseModal(t: ModalType)
      modifies this
      ensures State() == Hide(old(State()), t, mounted)
    {
      HideModal(t);
    }

    /** `closeActiveModal()`, which the Escape key calls. */
    method CloseActiveModal()
      modifies this
      ensures State() == CloseActive(old(State()), mounted)
    {
      if activeModal.Some? {
        HideModal(activeModal.value);
      }
    }

    /** `showModal(modalType)` */
    method ShowModal(t: ModalType)
      modifies this
      ensures State() == Show(old(State()), t, mounted)
    {
      if !(t == EditFood && activeModal == Some(FoodDetails)) {
        CloseActiveModal();
      }
      if t !in mounted {
        return;
      }
      if t == EditFood && activeModal == Some(FoodDetails) {
        previousModal := activeModal;
      }
      activeModal := Some(t);
    }

    /** `showModalStacked(modalType)` */
    method ShowModalStacked(t: ModalType)
      modifies this
      ensures State() == ShowStacked(old(State()), t, mounted)
    {
      if t !in mounted {
        return;
      }
      previousModal := activeModal;
      activeModal := Some(t);
    }

    /** `hideModalStacked(modalType)` */
    method HideModalStacked(t: ModalType)
      modifies this
      ensures State() == HideStacked(old(State()), t, mounted)
    {
      if t !in mounted {
        return;
      }
      activeModal := previousModal;
      previousModal := None;
    }

    /** `showConfirmation(...)`: the dialog is shown stacked over whatever is
        open. */
    method ShowConfirmation()
      modifies this
      ensures State() == ShowStacked(old(State()), Confirmation, mounted)
    {
      ShowModalStacked(Confirmation);
    }

    /** The Yes and No handlers of the dialog: both hide it stacked, which
        restores the modal it was shown over. */
    method AnswerConfirmation()
      modifies this
      ensures State() == HideStacked(old(State()), Confirmation, mounted)
    {
      HideModalStacked(Confirmation);
    }

    /** `isModalOpen()` */
    method IsModalOpen() returns (open: bool)
      ensures open <==> activeModal.Some?
    {
      open := activeModal.Some?;
    }

    /** `destroy()` */
    method Destroy()
      modifies this
      ensures State() == Destroyed(old(State()))
    {
      activeModal := None;
    }
  }
}
