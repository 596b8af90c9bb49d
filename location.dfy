/** The district/wijk cascade of the listing forms: choosing a district
    loads that district's wijken into the dependent select, and the form
    refuses to submit without a district. The fetch is split into the
    request (LoadWijken) and the handling of its outcome (WijkenArrived). */
module Location {
  import opened Wrappers
  import opened Chars

  /** One option of the wijk select. */
  datatype SelectOption = SelectOption(value: string, text: string, selected: bool)

  /** How the wijken request ended: a network or HTTP failure, JSON that is
      not an array, or an array of wijk names. */
  datatype Outcome = FetchFailed | NotArray | Wijken(names: seq<string>)

  /** One wijken request: the district asked for, and the wijk to pre-select
      when its answer arrives (loadWijken's second argument). */
  datatype WijkRequest = WijkRequest(district: string, selectedWijk: Option<string>)

  /** The #locationError alert. closeText is the text of its close button. */
  datatype ErrorAlert = ErrorAlert(serial: nat, message: string, closeText: string)

  const NoDistrict: string := "Selecteer eerst een district"
  const Loading: string := "Laden..."
  const Placeholder: string := "Selecteer wijk (optioneel)"
  const NoWijken: string := "Geen wijken beschikbaar"
  const LoadFailed: string := "Fout bij laden"
  const LoadFailedMessage: string := "Kon wijken niet laden. Probeer de pagina te vernieuwen."

  /** A single option with an empty value carrying a notice. */
  function Notice(text: string): seq<SelectOption>
  {
    [SelectOption("", text, false)]
  }

  /** capitalizeFirst: "" stays "", otherwise the first character is
      upper-cased. */
  function CapitalizeFirst(s: string): (r: string)
    ensures |r| == |s|
    ensures s != [] ==> r[0] == UpperChar(s[0]) && r[1..] == s[1..]
  {
    if s == [] then "" else [UpperChar(s[0])] + s[1..]
  }

  /** Capitalising twice is capitalising once, and only a lower-case first
      letter is changed. */
  lemma CapitalizeFirstIdempotent(s: string)
    ensures CapitalizeFirst(CapitalizeFirst(s)) == CapitalizeFirst(s)
    ensures CapitalizeFirst(s) == s <==> (s == [] || !IsLower(s[0]))
  {
    if s != [] && IsLower(s[0]) {
      assert CapitalizeFirst(s)[0] != s[0];
    }
  }

  /** The option for one wijk; selectedWijk only counts when truthy. */
  function WijkOption(name: string, selectedWijk: Option<string>): SelectOption
  {
    SelectOption(name, CapitalizeFirst(name),
                 selectedWijk.Some? && selectedWijk.value != "" && name == selectedWijk.value)
  }

  /** The options after a non-empty array arrived: the placeholder, then one
      option per wijk in response order. */
  function Populated(names: seq<string>, selectedWijk: Option<string>): (r: seq<SelectOption>)
    ensures |r| == |names| + 1
  {
    Notice(Placeholder) + seq(|names|, k requires 0 <= k < |names| => WijkOption(names[k], selectedWijk))
  }

  /** One more wijk adds one more option at the end. */
  lemma PopulatedStep(names: seq<string>, k: nat, selectedWijk: Option<string>)
    requires k < |names|
    ensures Populated(names[..k + 1], selectedWijk) == Populated(names[..k], selectedWijk) + [WijkOption(names[k], selectedWijk)]
  {
    var a, b := Populated(names[..k + 1], selectedWijk), Populated(names[..k], selectedWijk) + [WijkOption(names[k], selectedWijk)];
    forall i | 0 <= i < |a| ensures a[i] == b[i] {
    }
  }

  /** The placeholder has an empty value; option k + 1 carries wijk k as its
      value and its capitalised name as its text, and it is selected exactly
      when it is the non-empty pre-selected wijk. */
  lemma PopulatedOptions(names: seq<string>, selectedWijk: Option<string>)
    ensures var r := Populated(names, selectedWijk);
      && r[0] == SelectOption("", Placeholder, false)
      && (forall k :: 0 <= k < |names| ==>
            r[k + 1].value == names[k] && r[k + 1].text == CapitalizeFirst(names[k])
            && (r[k + 1].selected <==> selectedWijk.Some? && selectedWijk.value != "" && names[k] == selectedWijk.value))
      && (selectedWijk.None? || selectedWijk == Some("") ==> forall k :: 0 <= k < |r| ==> !r[k].selected)
  {
  }

  /** What the wijk select shows after a response (options, disabled). */
  function AfterResponse(outcome: Outcome, selectedWijk: Option<string>): (seq<SelectOption>, bool)
  {
    match outcome
    case FetchFailed => (Notice(LoadFailed), true)
    case NotArray => (Notice(NoWijken), true)
    case Wijken(names) =>
      if names == [] then (Notice(NoWijken), true) else (Populated(names, selectedWijk), false)
  }

  /** The select is enabled exactly when a non-empty array arrived, and then
      it offers every wijk of the response. */
  lemma AfterResponseEnabled(outcome: Outcome, selectedWijk: Option<string>)
    ensures var (opts, disabled) := AfterResponse(outcome, selectedWijk);
      && (!disabled <==> outcome.Wijken? && outcome.names != [])
      && (disabled ==> |opts| == 1 && opts[0].value == "")
      && (!disabled ==> forall k :: 0 <= k < |outcome.names| ==> opts[k + 1].value == outcome.names[k])
  {
    var (opts, disabled) := AfterResponse(outcome, selectedWijk);
    if !disabled {
      PopulatedOptions(outcome.names, selectedWijk);
    }
  }

  class Form {
    /** districtSelect.value. */
    var district: string
    /** wijkSelect's options and disabled flag. */
    var options: seq<SelectOption>
    var disabled: bool
    /** wijkSelect's aria-disabled attribute, as a flag. */
    var ariaDisabled: bool
    /** The #locationError alerts in the document. */
    var alerts: seq<ErrorAlert>
    var nextAlert: nat
    /** The district select carries is-invalid. */
    var districtInvalid: bool
    /** The invalid-feedback element next to the district select: None when
        there is none, else whether it is displayed. */
    var feedback: Option<bool>
    /** The wijken requests sent, in order. */
    var requests: seq<WijkRequest>

    ghost predicate Valid()
      reads this
    {
      ariaDisabled == disabled && |alerts| <= 1
    }

    constructor (district0: string, options0: seq<SelectOption>, disabled0: bool, feedback0: Option<bool>)
      ensures Valid()
      ensures district == district0 && options == options0 && disabled == disabled0
      ensures alerts == [] && !districtInvalid && feedback == feedback0 && requests == []
    {
      district := district0;
      options := options0;
      disabled := disabled0;
      ariaDisabled := disabled0;
      alerts := [];
      nextAlert := 0;
      districtInvalid := false;
      feedback := feedback0;
      requests := [];
    }

    /** loadWijken(district, selectedWijk): clears the select, disables it,
        and either asks for a district or shows the loading notice and sends
        the request, which remembers the wijk to pre-select. */
    method LoadWijken(d: string, selectedWijk: Option<string>)
      requires Valid()
      modifies this
      ensures Valid()
      ensures district == old(district) && alerts == old(alerts) && nextAlert == old(nextAlert)
      ensures districtInvalid == old(districtInvalid) && feedback == old(feedback)
      ensures disabled
      ensures d == "" ==> options == Notice(NoDistrict) && requests == old(requests)
      ensures d != "" ==> options == Notice(Loading) && requests == old(requests) + [WijkRequest(d, selectedWijk)]
    {
      options := [];
      disabled := true;
      if d == "" {
        options := Notice(NoDistrict);
      } else {
        options := Notice(Loading);
        requests := requests + [WijkRequest(d, selectedWijk)];
      }
      ariaDisabled := disabled;
    }

    /** The initial load of the edit page: with a district already chosen,
        its wijken are loaded with the stored wijk (the select's
        data-selected attribute, when present) to pre-select. */
    method InitialLoad(initialWijk: Option<string>)
      requires Valid()
      modifies this
      ensures Valid()
      ensures district == old(district) && alerts == old(alerts) && nextAlert == old(nextAlert)
      ensures districtInvalid == old(districtInvalid) && feedback == old(feedback)
      ensures district == "" ==> options == old(options) && disabled == old(disabled) && requests == old(requests)
      ensures district != "" ==>
        options == Notice(Loading) && disabled && requests == old(requests) + [WijkRequest(district, initialWijk)]
    {
      if district != "" {
        LoadWijken(district, initialWijk);
      }
    }

    /** The handlers of the promise chain of request r, the r-th one sent;
        they pre-select the wijk that request was sent with. */
    method WijkenArrived(r: nat, outcome: Outcome)
      requires Valid() && r < |requests|
      modifies this
      ensures Valid()
      ensures district == old(district) && requests == old(requests)
      ensures districtInvalid == old(districtInvalid) && feedback == old(feedback)
      ensures (options, disabled) == AfterResponse(outcome, requests[r].selectedWijk)
      ensures !outcome.FetchFailed? ==> alerts == old(alerts) && nextAlert == old(nextAlert)
      ensures outcome.FetchFailed? ==>
        if old(alerts) == [] then alerts == [ErrorAlert(old(nextAlert), LoadFailedMessage, "")]
        else alerts == [old(alerts)[0].(closeText := LoadFailedMessage)]
    {
      match outcome {
        case FetchFailed =>
          options := Notice(LoadFailed);
          disabled := true;
          ariaDisabled := disabled;
          ShowError(LoadFailedMessage);
        case NotArray =>
          options := Notice(NoWijken);
          disabled := true;
        case Wijken(names) =>
          disabled := false;
          options := Notice(Placeholder);
          if names == [] {
            options := Notice(NoWijken);
            disabled := true;
          } else {
            AppendWijkOptions(names, requests[r].selectedWijk);
          }
      }
      ariaDisabled := disabled;
    }

    /** data.forEach: one option per wijk is appended after the
        placeholder, in response order. */
    method AppendWijkOptions(names: seq<string>, selectedWijk: Option<string>)
      requires options == Notice(Placeholder)
      modifies this
      ensures options == Populated(names, selectedWijk)
      ensures district == old(district) && disabled == old(disabled) && ariaDisabled == old(ariaDisabled)
      ensures alerts == old(alerts) && nextAlert == old(nextAlert)
      ensures districtInvalid == old(districtInvalid) && feedback == old(feedback) && requests == old(requests)
    {
      var opts := options;
      var k := 0;
      while k < |names|
        invariant 0 <= k <= |names|
        invariant opts == Populated(names[..k], selectedWijk)
        modifies {}
      {
        PopulatedStep(names, k, selectedWijk);
        opts := opts + [WijkOption(names[k], selectedWijk)];
        k := k + 1;
      }
      assert names[..k] == names;
      options := opts;
    }

    /** showError: the first error creates the alert; a later one finds the
        alert's first element child, its close button, and sets that
        button's text. */
    method ShowError(message: string)
      requires |alerts| <= 1
      modifies this
      ensures district == old(district) && options == old(options) && disabled == old(disabled)
      ensures ariaDisabled == old(ariaDisabled) && requests == old(requests)
      ensures districtInvalid == old(districtInvalid) && feedback == old(feedback)
      ensures |alerts| == 1
      ensures old(alerts) == [] ==> alerts == [ErrorAlert(old(nextAlert), message, "")] && nextAlert == old(nextAlert) + 1
      ensures old(alerts) != [] ==> alerts == [old(alerts)[0].(closeText := message)] && nextAlert == old(nextAlert)
    {
      if alerts == [] {
        alerts := [ErrorAlert(nextAlert, message, "")];
        nextAlert := nextAlert + 1;
      } else {
        alerts := [alerts[0].(closeText := message)];
      }
    }

    /** The auto-dismiss timer of alert serial: it closes that alert if it
        is still in the document. */
    method DismissError(serial: nat)
      requires Valid()
      modifies this
      ensures Valid()
      ensures district == old(district) && options == old(options) && disabled == old(disabled)
      ensures requests == old(requests) && nextAlert == old(nextAlert)
      ensures districtInvalid == old(districtInvalid) && feedback == old(feedback)
      ensures alerts == if old(alerts) != [] && old(alerts)[0].serial == serial then [] else old(alerts)
    {
      if alerts != [] && alerts[0].serial == serial {
        alerts := [];
      }
    }

    /** Both change listeners of the district select, in registration
        order: reload the wijken, drop the error alert, clear the invalid
        state. */
    method DistrictChanged(d: string)
      requires Valid()
      modifies this
      ensures Valid()
      ensures district == d && disabled && alerts == [] && nextAlert == old(nextAlert)
      ensures d == "" ==> options == Notice(NoDistrict) && requests == old(requests)
      ensures d != "" ==> options == Notice(Loading) && requests == old(requests) + [WijkRequest(d, None)]
      ensures !districtInvalid
      ensures feedback == if old(feedback).Some? then Some(false) else None
    {
      district := d;
      LoadWijken(d, None);
      alerts := [];
      districtInvalid := false;
      if feedback.Some? {
        feedback := Some(false);
      }
    }

    /** The submit listener; returns whether submission is prevented. */
    method Submit() returns (prevented: bool)
      requires Valid()
      modifies this
      ensures Valid()
      ensures district == old(district) && options == old(options) && disabled == old(disabled)
      ensures alerts == old(alerts) && nextAlert == old(nextAlert) && requests == old(requests)
      ensures prevented <==> district == ""
      ensures prevented ==> districtInvalid && feedback == Some(true)
      ensures !prevented ==> !districtInvalid && feedback == if old(feedback).Some? then Some(false) else None
    {
      if district == "" {
        districtInvalid := true;
        // A missing feedback element is created and becomes the next sibling.
        feedback := Some(true);
        return true;
      }
      districtInvalid := false;
      if feedback.Some? {
        feedback := Some(false);
      }
      return false;
    }
  }
}
