/**
 * The instructor's routine-details screen (`RoutineDetails` and
 * `RoutineDetailsContent`): loading a routine by its route id, switching between
 * view and edit mode, taking the result of a successful edit, and the total
 * duration shown above the segment list.
 */
module RoutineDetailsScreen {
  import opened Wrappers
  import Decimal

  /** A segment as the screen holds it; only its duration matters to this screen's logic. */
  datatype SegmentView = SegmentView(duration: nat)

  /** The routine returned by `InstructorService.getRoutineDetail` or by the edit form. */
  datatype RoutineView = RoutineView(id: nat, name: string, description: string, segments: seq<SegmentView>)

  /** The awaited response of `InstructorService.getRoutineDetail`. */
  datatype DetailResponse = Fetched(data: RoutineView) | FetchFailed

  /** The message shown after a successful edit. */
  const SavedMessage: string := "Se han guardado los cambios"

  /**
   * `Number(s)` for the strings the model covers: the empty string is 0, a
   * string of decimal digits is its value, anything else is `NaN` (`None`).
   */
  function NumberOf(s: string): (n: Option<nat>)
    ensures s != "" ==> n == Decimal.Parse(s)
    ensures Truthy(n) <==> s != "" && Decimal.AllDigits(s) && exists i :: 0 <= i < |s| && s[i] != '0'
  {
    if s == "" then Some(0)
    else if Decimal.AllDigits(s) then
      Decimal.ParseNonzero(s);
      Decimal.Parse(s)
    else
      Decimal.Parse(s)
  }

  /** JavaScript truthiness of a number: neither `NaN` nor 0. */
  predicate Truthy(n: Option<nat>) {
    n.Some? && n.value != 0
  }

  // ---------------------------------------------------------------------------
  // Total duration (RoutineDetailsContent)
  // ---------------------------------------------------------------------------

  /** The sum of the durations of `segs`. */
  function SumOfDurations(segs: seq<SegmentView>): nat {
    if segs == [] then 0 else SumOfDurations(segs[..|segs| - 1]) + segs[|segs| - 1].duration
  }

  /** The accumulating loop of `RoutineDetailsContent`: `segments.forEach((s) => (total += s.duration))`. */
  method TotalDuration(segments: seq<SegmentView>) returns (total: nat)
    ensures total == SumOfDurations(segments)
  {
    total := 0;
    for i := 0 to |segments|
      invariant total == SumOfDurations(segments[..i])
    {
      assert segments[..i + 1][..i] == segments[..i];
      total := total + segments[i].duration;
    }
    assert segments[..|segments|] == segments;
  }

  /** `!!Number(totalDuration)`: the duration tag is rendered. */
  predicate DurationTagShown(total: nat) {
    total != 0
  }

  /** The duration tag is shown exactly when some segment has a nonzero duration. */
  lemma {:induction false} DurationTagShownIff(segs: seq<SegmentView>)
    ensures DurationTagShown(SumOfDurations(segs)) ==> exists i :: 0 <= i < |segs| && segs[i].duration > 0
    ensures (exists i :: 0 <= i < |segs| && segs[i].duration > 0) ==> DurationTagShown(SumOfDurations(segs))
  {
    if segs != [] {
      var init := segs[..|segs| - 1];
      DurationTagShownIff(init);
      if SumOfDurations(init) != 0 {
        var i :| 0 <= i < |init| && init[i].duration > 0;
        assert segs[i] == init[i];
      }
      if i :| 0 <= i < |segs| && segs[i].duration > 0 {
        if i < |segs| - 1 {
          assert init[i] == segs[i];
        }
      }
    }
  }

  // ---------------------------------------------------------------------------
  // The screen's state
  // ---------------------------------------------------------------------------

  class RoutineDetails {
    var routine: Option<RoutineView>
    var segments: seq<SegmentView>
    var loading: bool
    var editMode: bool
    var successMessage: string
    /** The "Dejar de editar" confirmation dialog is open. */
    var dialogOpen: bool
    /** The ids passed to `InstructorService.getRoutineDetail`, in order. */
    var requested: seq<nat>
    /** `RoutineUtils.initializeSegments`, which is not part of this model. */
    const initializeSegments: seq<SegmentView> -> seq<SegmentView>

    /** The initial state of every `useState` of the component. */
    constructor (initializeSegments: seq<SegmentView> -> seq<SegmentView>)
      ensures routine.None? && segments == [] && loading && !editMode && successMessage == ""
      ensures !dialogOpen && requested == [] && this.initializeSegments == initializeSegments
    {
      routine := None;
      segments := [];
      loading := true;
      editMode := false;
      successMessage := "";
      dialogOpen := false;
      requested := [];
      this.initializeSegments := initializeSegments;
    }

    /** `if (!loading && !routine) return <ResourceNotFound />` */
    predicate ShowsNotFound()
      reads this
    {
      !loading && routine.None?
    }

    /** `retrieveRoutine(id)`, with the awaited response `res`. */
    method RetrieveRoutine(id: nat, res: DetailResponse)
      modifies this
      ensures requested == old(requested) + [id] && !loading
      ensures res.FetchFailed? ==> routine == old(routine) && segments == old(segments)
      ensures res.Fetched? ==> routine == Some(res.data) && segments == initializeSegments(res.data.segments)
      ensures ShowsNotFound() <==> res.FetchFailed? && old(routine).None?
      ensures editMode == old(editMode) && successMessage == old(successMessage) && dialogOpen == old(dialogOpen)
    {
      requested := requested + [id];
      if res.FetchFailed? {
        loading := false;
        return;
      }
      routine := Some(res.data);
      segments := initializeSegments(res.data.segments);
      loading := false;
    }

    /**
     * The effect on the route parameter `id`: without an id, or with one whose
     * `Number(id)` is falsy, loading stops and nothing is fetched; otherwise
     * the routine is fetched and `res` is the response.
     */
    method OnIdParam(id: Option<string>, res: DetailResponse)
      modifies this
      ensures var fetch := id.Some? && Decimal.Parse(id.value).Some? && Decimal.Parse(id.value).value > 0;
              && (fetch ==> requested == old(requested) + [Decimal.Parse(id.value).value])
              && (!fetch ==> requested == old(requested) && routine == old(routine) && segments == old(segments))
              && (fetch && res.Fetched? ==> routine == Some(res.data) && segments == initializeSegments(res.data.segments))
              && (fetch && res.FetchFailed? ==> routine == old(routine) && segments == old(segments))
      ensures !loading
      ensures editMode == old(editMode) && successMessage == old(successMessage) && dialogOpen == old(dialogOpen)
    {
      if id.None? || id.value == "" || !Truthy(NumberOf(id.value)) {
        loading := false;
        return;
      }
      RetrieveRoutine(NumberOf(id.value).value, res);
    }

    /** `toggleEditMode`: entering edit mode clears the success message; leaving it asks for confirmation. */
    method ToggleEditMode()
      modifies this
      ensures !old(editMode) ==> editMode && successMessage == "" && dialogOpen == old(dialogOpen)
      ensures old(editMode) ==> editMode && dialogOpen && successMessage == old(successMessage)
      ensures routine == old(routine) && segments == old(segments) && loading == old(loading)
      ensures requested == old(requested)
    {
      if !editMode {
        successMessage := "";
        editMode := true;
        return;
      }
      dialogOpen := true;
    }

    /** The dialog's confirm button: it closes the dialog and runs `() => setEditMode(false)`. */
    method ConfirmDialog()
      modifies this
      ensures !dialogOpen
      ensures old(dialogOpen) ==> !editMode
      ensures !old(dialogOpen) ==> editMode == old(editMode)
      ensures routine == old(routine) && segments == old(segments) && loading == old(loading)
      ensures successMessage == old(successMessage) && requested == old(requested)
    {
      if dialogOpen {
        dialogOpen := false;
        editMode := false;
      }
    }

    /** Dismissing the dialog closes it and leaves edit mode on. */
    method CancelDialog()
      modifies this
      ensures !dialogOpen && editMode == old(editMode)
      ensures routine == old(routine) && segments == old(segments) && loading == old(loading)
      ensures successMessage == old(successMessage) && requested == old(requested)
    {
      dialogOpen := false;
    }

    /** `onEditSuccess(r)`: the saved routine replaces the shown one and view mode returns. */
    method OnEditSuccess(r: RoutineView)
      modifies this
      ensures routine == Some(r) && segments == initializeSegments(r.segments)
      ensures successMessage == SavedMessage && successMessage != "" && !editMode
      ensures loading == old(loading) && dialogOpen == old(dialogOpen) && requested == old(requested)
    {
      routine := Some(r);
      segments := initializeSegments(r.segments);
      successMessage := SavedMessage;
      editMode := false;
    }
  }
}
