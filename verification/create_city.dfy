/**
 * The dialog that creates a city: a name field and a palette of eight colours. Submit
 * hands the trimmed name and the chosen colour to the page only when the trimmed name
 * is non-empty; submitting or closing resets the form.
 */
module CreateCityModal {
  import opened Wrappers
  import opened Text

  datatype Swatch = Swatch(name: string, value: string)

  const CityColors: seq<Swatch> := [
    Swatch("Ocean Blue", "#0ea5e9"),
    Swatch("Forest Green", "#10b981"),
    Swatch("Sunset Orange", "#f59e0b"),
    Swatch("Royal Purple", "#8b5cf6"),
    Swatch("Rose Pink", "#ec4899"),
    Swatch("Coral Red", "#ef4444"),
    Swatch("Emerald", "#059669"),
    Swatch("Indigo", "#6366f1")
  ]

  /** The colour selected when the dialog opens or resets: the first of the palette. */
  const DefaultColor: string := "#0ea5e9"

  /** Eight colours, no value twice, and the default is the first. */
  lemma PaletteWellFormed()
    ensures |CityColors| == 8
    ensures forall i, j :: 0 <= i < j < |CityColors| ==> CityColors[i].value != CityColors[j].value
    ensures DefaultColor == CityColors[0].value
  {
  }

  /** The dialog's state: the name typed so far and the colour selected. */
  datatype Form = Form(name: string, color: string)

  const Blank: Form := Form("", DefaultColor)

  /** What the page's `createCity` receives. */
  datatype CreateRequest = CreateRequest(name: string, color: string)

  datatype Submitted = Submitted(form: Form, request: Option<CreateRequest>)

  /**
   * `handleSubmit`: with a name that is not all whitespace, the trimmed name and the colour
   * go to the page and the form resets; otherwise nothing happens.
   */
  function HandleSubmit(f: Form): (r: Submitted)
    ensures r.request.Some? <==> exists i :: 0 <= i < |f.name| && !IsWhitespace(f.name[i])
    ensures r.request.Some? ==> r.request.value == CreateRequest(Trim(f.name), f.color) && r.form == Blank
    ensures r.request.None? ==> r.form == f
  {
    var trimmed := Trim(f.name);
    if |trimmed| > 0 then Submitted(Blank, Some(CreateRequest(trimmed, f.color)))
    else Submitted(f, None)
  }

  /** `handleClose`: whatever was typed or picked, the form goes back to blank. */
  function HandleClose(f: Form): (r: Form)
    ensures r.name == [] && r.color == CityColors[0].value
  {
    Blank
  }

  /** The Create button is disabled while the trimmed name is empty. */
  predicate SubmitDisabled(f: Form)
    ensures SubmitDisabled(f) <==> forall i :: 0 <= i < |f.name| ==> IsWhitespace(f.name[i])
  {
    |Trim(f.name)| == 0
  }

  /** The button is disabled exactly when submitting would do nothing. */
  lemma DisabledIffSubmitIgnored(f: Form)
    ensures SubmitDisabled(f) <==> HandleSubmit(f).request.None?
  {
  }

  /** A name handed to the page is non-empty, has no whitespace at either end, and trims to itself. */
  lemma SubmittedNameIsClean(f: Form)
    requires HandleSubmit(f).request.Some?
    ensures var name := HandleSubmit(f).request.value.name;
      && |name| > 0 && !IsWhitespace(name[0]) && !IsWhitespace(name[|name| - 1])
      && Trim(name) == name
  {
    TrimIdempotent(f.name);
  }
}
