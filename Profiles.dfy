/** A watermark profile and the parameter dialogs that produce one.

    A profile names a watermark image, a width as a percentage of the photo width and a
    margin in pixels. The percentage and margin dialogs only accept integers within their
    bounds (5 to 100, 0 to 500) and give None when cancelled. */
module Profiles {
  import opened Outcomes

  /** The margin is optional because a cancelled margin dialog stores None. */
  datatype Profile = Profile(wmFile: string, scalePct: int, margin: Option<int>)

  const MinScalePct: int := 5
  const MaxScalePct: int := 100
  const MinMargin: int := 0
  const MaxMargin: int := 500

  /** What the three dialogs of ask_params return: a file path ("" when cancelled), and two integers. */
  datatype DialogAnswers = DialogAnswers(wmFile: string, scale: Option<int>, margin: Option<int>)

  /** The integer dialogs only ever return a value within their bounds. */
  predicate WithinDialogBounds(a: DialogAnswers) {
    && (a.scale.Some? ==> MinScalePct <= a.scale.value <= MaxScalePct)
    && (a.margin.Some? ==> MinMargin <= a.margin.value <= MaxMargin)
  }

  /** What a profile built by the dialogs satisfies. */
  predicate DialogMade(p: Profile) {
    && p.wmFile != ""
    && MinScalePct <= p.scalePct <= MaxScalePct
    && (p.margin.Some? ==> MinMargin <= p.margin.value <= MaxMargin)
  }

  /** ask_params: no profile when the file dialog is cancelled, a TypeError (None / 100.0)
      when the percentage dialog is cancelled, and otherwise a profile holding exactly the
      answers, which then meets the dialog bounds. */
  function AskParams(a: DialogAnswers): (r: Result<Option<Profile>>)
    requires WithinDialogBounds(a)
    ensures r == Ok(None) <==> a.wmFile == ""
    ensures r.Err? <==> a.wmFile != "" && a.scale.None?
    ensures r.Err? ==> r.fault == TypeError
    ensures r.Ok? && r.value.Some? ==>
      && DialogMade(r.value.value)
      && r.value.value.wmFile == a.wmFile
      && Some(r.value.value.scalePct) == a.scale
      && r.value.value.margin == a.margin
  {
    if a.wmFile == "" then Ok(None)
    else match a.scale
      case None => Err(TypeError)
      case Some(pct) => Ok(Some(Profile(a.wmFile, pct, a.margin)))
  }
}
