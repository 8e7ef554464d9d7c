/**
 * What the automator reads out of forms: the hidden fields of the login
 * form, the field map it submits for each approval form, and the URL an
 * approval form is submitted to (automator.py, get_login_page and
 * handle_access_options).
 */
module Forms {
  import opened Wrappers
  import opened Dict
  import opened Text
  import opened Html

  const BaseUrl := "https://netaccess.iitm.ac.in"
  const ApprovePath := "/account/approve"

  /** An attribute that is present and non-empty, i.e. truthy in Python. */
  predicate Truthy(a: Option<string>) {
    a.Some? && a.value != ""
  }

  // ---------------------------------------------------------------------
  // Hidden fields of the login form

  /** The assignment the hidden-field loop makes for an input: only `type="hidden"` with a non-empty name and value. */
  function HiddenPick(x: Input): (r: Option<Entry<string, string>>)
    ensures r.Some? <==> x.inputType == Some("hidden") && Truthy(x.name) && Truthy(x.value)
    ensures r.Some? ==> r.value.key != "" && r.value.val != "" && Some(r.value.key) == x.name && Some(r.value.val) == x.value
  {
    if x.inputType == Some("hidden") && Truthy(x.name) && Truthy(x.value)
    then Some(Entry(x.name.value, x.value.value))
    else None
  }

  /** The dict of hidden fields the loop builds over the form's inputs. */
  function HiddenFields(f: Form): Dict<string, string> {
    PutAll([], Select(f.inputs, HiddenPick))
  }

  /** The loop over the form's hidden inputs that fills `hidden_fields`. */
  method CollectHiddenFields(f: Form) returns (fields: Dict<string, string>)
    ensures fields == HiddenFields(f)
  {
    fields := [];
    for i := 0 to |f.inputs|
      invariant fields == PutAll([], Select(f.inputs[..i], HiddenPick))
    {
      PutAllSelectStep([], f.inputs, HiddenPick, i);
      var x := f.inputs[i];
      if x.inputType == Some("hidden") {
        if x.name.Some? && x.name.value != "" && x.value.Some? && x.value.value != "" {
          fields := Put(fields, x.name.value, x.value.value);
        }
      }
    }
    assert f.inputs[..|f.inputs|] == f.inputs;
  }

  /**
   * The hidden fields are exactly the hidden inputs with a non-empty name
   * and value; when several share a name, the last one's value is kept;
   * and no name appears twice.
   */
  lemma HiddenFieldsContents(f: Form, n: string, v: string)
    ensures Lookup(HiddenFields(f), n) == Some(v) <==> exists i :: PicksLast(f.inputs, HiddenPick, n, v, i)
    ensures Lookup(HiddenFields(f), n).None? <==>
      forall i :: 0 <= i < |f.inputs| ==> !Binds(HiddenPick(f.inputs[i]), n)
    ensures Distinct(Keys(HiddenFields(f)))
  {
    PutAllGet([], Select(f.inputs, HiddenPick), n);
    SelectGet(f.inputs, HiddenPick, n, v);
    SelectMissing(f.inputs, HiddenPick, n);
    PutAllKeys([], Select(f.inputs, HiddenPick));
  }

  // ---------------------------------------------------------------------
  // Field map of an approval form

  /**
   * The assignment the approval loop makes for an input. A named input's
   * value defaults to "" and its type to "text"; a radio is kept when "day"
   * occurs in its parent's markup or its value, a hidden or submit input
   * always, any other input when its name is "duration" or "period".
   */
  function ApprovalPick(x: Input): (r: Option<Entry<string, string>>)
    ensures r.Some? ==> Truthy(x.name) && r.value == Entry(x.name.value, x.value.GetOr(""))
    ensures Truthy(x.name) && (x.inputType == Some("hidden") || x.inputType == Some("submit")) ==> r.Some?
    ensures Truthy(x.name) && x.inputType == Some("radio") ==>
      (r.Some? <==> ContainsCI(x.parentText, "day") || ContainsCI(x.value.GetOr(""), "day"))
    ensures Truthy(x.name) && x.inputType.None? ==> (r.Some? <==> Lower(x.name.value) in ["duration", "period"])
    ensures Truthy(x.name) && x.inputType.Some? && x.inputType.value !in ["radio", "hidden", "submit"] ==>
      (r.Some? <==> Lower(x.name.value) in ["duration", "period"])
  {
    if !Truthy(x.name) then None
    else
      var name, value, kind := x.name.value, x.value.GetOr(""), x.inputType.GetOr("text");
      var keep :=
        if kind == "radio" then ContainsCI(x.parentText, "day") || ContainsCI(value, "day")
        else if kind == "hidden" || kind == "submit" then true
        else Lower(name) in ["duration", "period"];
      if keep then Some(Entry(name, value)) else None
  }

  /** A named radio with "day" in any case anywhere in its parent's markup is kept, with its value. */
  lemma RadioDayAnywhere(x: Input, before: string, word: string, after: string)
    requires Truthy(x.name) && x.inputType == Some("radio")
    requires x.parentText == before + word + after && Lower(word) == "day"
    ensures ApprovalPick(x) == Some(Entry(x.name.value, x.value.GetOr("")))
  {
    KeywordAnywhere(before, word, after, "day");
  }

  /** The assignment for a button: a named button's value, defaulting to "". */
  function ButtonPick(b: Button): (r: Option<Entry<string, string>>)
    ensures r.Some? <==> Truthy(b.name)
    ensures r.Some? ==> r.value == Entry(b.name.value, b.value.GetOr(""))
  {
    if Truthy(b.name) then Some(Entry(b.name.value, b.value.GetOr(""))) else None
  }

  /** The dict `form_data`: the inputs' assignments, then the buttons'. */
  function ApprovalFields(f: Form): Dict<string, string> {
    PutAll(PutAll([], Select(f.inputs, ApprovalPick)), Select(f.buttons, ButtonPick))
  }

  /** The loop over an approval form's inputs that starts filling `form_data`. */
  method CollectApprovalInputs(inputs: seq<Input>) returns (data: Dict<string, string>)
    ensures data == PutAll([], Select(inputs, ApprovalPick))
  {
    data := [];
    for i := 0 to |inputs|
      invariant data == PutAll([], Select(inputs[..i], ApprovalPick))
    {
      PutAllSelectStep([], inputs, ApprovalPick, i);
      var x := inputs[i];
      var value, kind := x.value.GetOr(""), x.inputType.GetOr("text");
      if x.name.Some? && x.name.value != "" {
        var name := x.name.value;
        if kind == "radio" {
          if ContainsCI(x.parentText, "day") || ContainsCI(value, "day") {
            assert ApprovalPick(x) == Some(Entry(name, value));
            data := Put(data, name, value);
          }
        } else if kind == "hidden" || kind == "submit" {
          assert ApprovalPick(x) == Some(Entry(name, value));
          data := Put(data, name, value);
        } else if Lower(name) == "duration" || Lower(name) == "period" {
          assert ApprovalPick(x) == Some(Entry(name, value));
          data := Put(data, name, value);
        }
      }
    }
    assert inputs[..|inputs|] == inputs;
  }

  /** The two loops, over inputs and then over buttons, that fill `form_data`. */
  method CollectApprovalData(f: Form) returns (data: Dict<string, string>)
    ensures data == ApprovalFields(f)
  {
    data := CollectApprovalInputs(f.inputs);
    ghost var fromInputs := data;
    for i := 0 to |f.buttons|
      invariant data == PutAll(fromInputs, Select(f.buttons[..i], ButtonPick))
    {
      PutAllSelectStep(fromInputs, f.buttons, ButtonPick, i);
      var b := f.buttons[i];
      if b.name.Some? && b.name.value != "" {
        data := Put(data, b.name.value, b.value.GetOr(""));
      }
    }
    assert f.buttons[..|f.buttons|] == f.buttons;
  }

  /**
   * A name is bound to a button's value when some named button carries it
   * (the last such button wins), and otherwise to the value of the last
   * kept input with that name; no name appears twice.
   */
  lemma ApprovalFieldsContents(f: Form, n: string, v: string)
    ensures Lookup(ApprovalFields(f), n) == Some(v) <==>
      (exists i :: PicksLast(f.buttons, ButtonPick, n, v, i)) ||
      ((forall j :: 0 <= j < |f.buttons| ==> !Binds(ButtonPick(f.buttons[j]), n)) &&
       exists i :: PicksLast(f.inputs, ApprovalPick, n, v, i))
    ensures Distinct(Keys(ApprovalFields(f)))
  {
    var fromInputs := PutAll([], Select(f.inputs, ApprovalPick));
    PutAllGet(fromInputs, Select(f.buttons, ButtonPick), n);
    PutAllGet([], Select(f.inputs, ApprovalPick), n);
    SelectGet(f.buttons, ButtonPick, n, v);
    SelectMissing(f.buttons, ButtonPick, n);
    SelectGet(f.inputs, ApprovalPick, n, v);
    PutAllKeys([], Select(f.inputs, ApprovalPick));
    PutAllKeys(fromInputs, Select(f.buttons, ButtonPick));
  }

  // ---------------------------------------------------------------------
  // Where an approval form is submitted

  /**
   * The submit URL of an approval form, a function of its `action` alone:
   * a path starting with "/" is taken off the gateway's origin, any other
   * non-empty action not starting with "http" is appended to the gateway
   * root, and an empty action or one starting with "http" falls back to the
   * approval path. The URL never leaves the gateway.
   */
  function SubmitUrl(action: string): (url: string)
    ensures StartsWith(action, "/") ==> url == BaseUrl + action
    ensures action != "" && !StartsWith(action, "/") && !StartsWith(action, "http") ==>
      url == BaseUrl + "/" + action
    ensures action == "" || StartsWith(action, "http") ==> url == BaseUrl + ApprovePath
    ensures StartsWith(url, BaseUrl)
  {
    assert StartsWith(action, "http") ==> action[0] == 'h';
    var url := if StartsWith(action, "/") then BaseUrl + action else BaseUrl + ApprovePath;
    if action != "" && !StartsWith(action, "/") && !StartsWith(action, "http")
    then BaseUrl + "/" + action
    else url
  }
}
