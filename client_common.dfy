/**
 * Behaviour that both browser clients share: the spacing of recognition
 * requests that a 500 ms throttle guarantees, the delete button's guard, the
 * user feedback record and the "last recognition" summary of a reply.
 */
module ClientCommon {
  import opened Wrappers
  import opened Text

  /** Both clients start at most one recognition request per this many milliseconds. */
  const RecognitionInterval: int := 500

  /** Consecutive start times are at least one interval apart. */
  ghost predicate Spaced(ts: seq<int>) {
    forall k :: 0 <= k < |ts| - 1 ==> ts[k] + RecognitionInterval <= ts[k + 1]
  }

  /** Appending a start that is an interval after every earlier one keeps the times spaced. */
  lemma SpacedSnoc(ts: seq<int>, t: int)
    requires Spaced(ts)
    requires ts != [] ==> ts[|ts| - 1] + RecognitionInterval <= t
    ensures Spaced(ts + [t])
  {
    var us := ts + [t];
    forall k | 0 <= k < |us| - 1 ensures us[k] + RecognitionInterval <= us[k + 1] {
      if k < |ts| - 1 { assert us[k] == ts[k] && us[k + 1] == ts[k + 1]; }
    }
  }

  /** Starts `j - i` apart in the sequence are at least `j - i` intervals apart in time. */
  lemma {:induction false} SpacedPairwise(ts: seq<int>, i: int, j: int)
    requires Spaced(ts)
    requires 0 <= i <= j < |ts|
    ensures ts[i] + RecognitionInterval * (j - i) <= ts[j]
  {
    if i < j {
      SpacedPairwise(ts, i, j - 1);
      assert ts[j - 1] + RecognitionInterval <= ts[j];
    }
  }

  /** No half-open window one interval long holds two request starts. */
  lemma AtMostOnePerWindow(ts: seq<int>, t: int, i: int, j: int)
    requires Spaced(ts)
    requires 0 <= i < |ts| && 0 <= j < |ts|
    requires t <= ts[i] < t + RecognitionInterval && t <= ts[j] < t + RecognitionInterval
    ensures i == j
  {
    if i < j { SpacedPairwise(ts, i, j); }
    if j < i { SpacedPairwise(ts, j, i); }
  }

  /** What a click on the delete button leads to. */
  datatype DeleteStep =
    | NothingSelected          // feedback "please select", no request
    | Declined                 // the confirmation dialog was answered "cancel"
    | SendDelete(filename: string)

  /**
   * The delete click handler's guard: an empty selection is refused before the
   * confirmation dialog; otherwise the request is sent only if `confirmed`,
   * the user's answer to that dialog.
   */
  function DeleteClick(selected: string, confirmed: bool): (r: DeleteStep)
    ensures r.NothingSelected? <==> selected == ""
    ensures r.SendDelete? <==> selected != "" && confirmed
    ensures r.SendDelete? ==> r.filename == selected
  {
    if selected == "" then NothingSelected
    else if !confirmed then Declined
    else SendDelete(selected)
  }

  /** The feedback the click handler shows before any request: `prompt` for an empty selection, nothing otherwise. */
  function ClickFeedback(selected: string, confirmed: bool, prompt: string): (f: Option<Feedback>)
    ensures f.Some? <==> selected == ""
    ensures f.Some? ==> f.value == Feedback(prompt, true, false)
    ensures f.None? && confirmed ==> DeleteClick(selected, confirmed) == SendDelete(selected)
  {
    if DeleteClick(selected, confirmed).NothingSelected? then Some(Feedback(prompt, true, false)) else None
  }

  /** `deleteBtn.disabled = !faceSelect.value`. */
  function DeleteButtonDisabled(selected: string): (disabled: bool)
    ensures disabled <==> selected == ""
    ensures !disabled ==> !DeleteClick(selected, true).NothingSelected?
  {
    selected == ""
  }

  /** A message shown to the user, whether it is an error, and whether the face list is reloaded. */
  datatype Feedback = Feedback(message: string, isError: bool, reloadList: bool)

  /** `data.error || fallback`: an absent or empty error uses the fallback. */
  function ErrorOr(error: Option<string>, fallback: string): (r: string)
    ensures error.Some? && error.value != "" ==> r == error.value
    ensures error.None? || error.value == "" ==> r == fallback
    ensures fallback != "" ==> r != ""
  {
    if error.Some? && error.value != "" then error.value else fallback
  }

  // ------------------------------------------------------------- summary

  /** The names of the detected faces, in reply order; `name` reads one face's name. */
  function NamesOf<F>(faces: seq<F>, name: F -> string): (ns: seq<string>)
    ensures |ns| == |faces| && forall i :: 0 <= i < |faces| ==> ns[i] == name(faces[i])
  {
    seq(|faces|, i requires 0 <= i < |faces| => name(faces[i]))
  }

  /** The "last recognition" text: the names joined by ", ", or `none` when there are none. */
  function SummaryText(names: seq<string>, none: string): string {
    if |names| > 0 then Join(names, ", ") else none
  }

  /** A non-empty summary starts with the first name and ends with the last. */
  lemma SummaryTextEnds(names: seq<string>, none: string)
    requires names != []
    ensures StartsWith(SummaryText(names, none), names[0])
    ensures EndsWith(SummaryText(names, none), names[|names| - 1])
  {
    JoinEnds(names, ", ");
  }

  /** One name gives exactly that name. */
  lemma SummaryTextOfOne(name: string, none: string)
    ensures SummaryText([name], none) == name
  {}
}
