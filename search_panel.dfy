/**
 * app/components/SearchPanel.tsx: `handleSearch` turns the panel's inputs and the
 * selected tags into the criteria object handed to `onSearch`.
 */
module SearchPanel {
  import opened Common

  /** The criteria object; `None` is an `undefined` property. */
  datatype Criteria = Criteria(
    tags: Option<seq<string>>,
    startDate: Option<string>,
    endDate: Option<string>,
    make: Option<string>,
    model: Option<string>,
    fNumber: Option<string>,
    exposureTime: Option<string>,
    isoSpeedRatings: Option<string>)

  /** The seven text inputs of the panel. */
  datatype Form = Form(
    startDate: string,
    endDate: string,
    make: string,
    model: string,
    fNumber: string,
    exposureTime: string,
    isoSpeedRatings: string)

  /** Every input starts as the empty string. */
  const EmptyForm := Form("", "", "", "", "", "", "")

  /** `s || undefined`. */
  function OrUndefined(s: string): (r: Option<string>)
    ensures r.None? <==> s == ""
    ensures r.Some? ==> r.value == s
  {
    if s == "" then None else Some(s)
  }

  /** The criteria `handleSearch` builds. */
  function BuildCriteria(form: Form, selectedTags: seq<string>): (c: Criteria)
    ensures c.tags.None? <==> selectedTags == []
    ensures c.tags.Some? ==> c.tags.value == selectedTags
    ensures c.startDate == OrUndefined(form.startDate) && c.endDate == OrUndefined(form.endDate)
    ensures c.make == OrUndefined(form.make) && c.model == OrUndefined(form.model)
    ensures c.fNumber == OrUndefined(form.fNumber) && c.exposureTime == OrUndefined(form.exposureTime)
    ensures c.isoSpeedRatings == OrUndefined(form.isoSpeedRatings)
  {
    Criteria(
      if |selectedTags| > 0 then Some(selectedTags) else None,
      OrUndefined(form.startDate),
      OrUndefined(form.endDate),
      OrUndefined(form.make),
      OrUndefined(form.model),
      OrUndefined(form.fNumber),
      OrUndefined(form.exposureTime),
      OrUndefined(form.isoSpeedRatings))
  }

  /** A property value of the criteria object. */
  datatype Value = Undefined | Text(text: string) | Names(names: seq<string>)

  /** The keys of the criteria object, in the order the literal declares them. */
  const CriteriaKeys: seq<string> :=
    ["tags", "startDate", "endDate", "make", "model", "fNumber", "exposureTime", "isoSpeedRatings"]

  function TextValue(v: Option<string>): Value {
    if v.Some? then Text(v.value) else Undefined
  }

  /** `Object.entries(criteria)`: the eight keys in declaration order with their values. */
  function Entries(c: Criteria): (es: seq<(string, Value)>)
    ensures |es| == |CriteriaKeys| && forall k :: 0 <= k < |es| ==> es[k].0 == CriteriaKeys[k]
  {
    [("tags", if c.tags.Some? then Names(c.tags.value) else Undefined),
     ("startDate", TextValue(c.startDate)),
     ("endDate", TextValue(c.endDate)),
     ("make", TextValue(c.make)),
     ("model", TextValue(c.model)),
     ("fNumber", TextValue(c.fNumber)),
     ("exposureTime", TextValue(c.exposureTime)),
     ("isoSpeedRatings", TextValue(c.isoSpeedRatings))]
  }

  /** `handleSearch`: the calls made to `onSearch`. */
  function HandleSearch(form: Form, selectedTags: seq<string>): (calls: seq<Criteria>)
    ensures |calls| == 1 && calls[0] == BuildCriteria(form, selectedTags)
  {
    [BuildCriteria(form, selectedTags)]
  }

  /** Whether input `k` (in key order; 0 is the tag selection) holds something. */
  predicate Filled(form: Form, selectedTags: seq<string>, k: int) {
    match k
    case 0 => selectedTags != []
    case 1 => form.startDate != ""
    case 2 => form.endDate != ""
    case 3 => form.make != ""
    case 4 => form.model != ""
    case 5 => form.fNumber != ""
    case 6 => form.exposureTime != ""
    case 7 => form.isoSpeedRatings != ""
    case _ => false
  }

  /**
   * Each property of the built criteria is defined exactly when its input is
   * filled, and a defined value is never "" nor an empty tag list.
   */
  lemma {:induction false} EntriesOfForm(form: Form, selectedTags: seq<string>)
    ensures var es := Entries(BuildCriteria(form, selectedTags));
      forall k :: 0 <= k < |es| ==>
        (es[k].1.Undefined? <==> !Filled(form, selectedTags, k)) &&
        (es[k].1.Text? ==> es[k].1.text != "") &&
        (es[k].1.Names? ==> es[k].1.names == selectedTags && selectedTags != [])
  {
    var c := BuildCriteria(form, selectedTags);
    var es := Entries(c);
    forall k | 0 <= k < |es|
      ensures (es[k].1.Undefined? <==> !Filled(form, selectedTags, k)) &&
              (es[k].1.Text? ==> es[k].1.text != "") &&
              (es[k].1.Names? ==> es[k].1.names == selectedTags && selectedTags != [])
    {
      if k == 0 {
        assert es[0].1 == (if c.tags.Some? then Names(c.tags.value) else Undefined);
      } else if k == 1 {
        assert es[1].1 == TextValue(c.startDate);
      } else if k == 2 {
        assert es[2].1 == TextValue(c.endDate);
      } else if k == 3 {
        assert es[3].1 == TextValue(c.make);
      } else if k == 4 {
        assert es[4].1 == TextValue(c.model);
      } else if k == 5 {
        assert es[5].1 == TextValue(c.fNumber);
      } else if k == 6 {
        assert es[6].1 == TextValue(c.exposureTime);
      } else {
        assert es[7].1 == TextValue(c.isoSpeedRatings);
      }
    }
  }

  /** Searching with an untouched panel and no tags restricts nothing. */
  lemma EmptySearch()
    ensures BuildCriteria(EmptyForm, []) == Criteria(None, None, None, None, None, None, None, None)
  {
  }
}
