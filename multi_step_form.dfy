/** The client's three-step quotation form
    (frontend/app/MultiStepForm/page.jsx) as a state machine: choose a
    BHK type, pick items per room (or enter a carpet area), then enter
    contact details. Server replies are parameters of the handlers that
    await them. */
module MultiStepForm {
  import opened Outcomes
  import opened JsStrings
  import OptionCatalog

  /** Room -> the items chosen (or offered) for it. */
  type Selections = map<string, seq<string>>

  const FirstStep := 1
  const LastStep := 3

  /** The single-choice room; every other room is a set of check boxes. */
  const KitchenRoom := "Kitchen"

  const NameField := "name"
  const EmailField := "email"
  const PhoneField := "phoneNumber"
  const PropertyField := "propertyName"
  const AddOptionKey := "addOption"
  const SubmitKey := "submit"

  const InvalidOptionMessage := "Please enter a valid option"
  const SubmissionFailedMessage := "Form submission failed"

  /** The reply the client receives to a request it awaits: accepted, or
      failed with the message it turns into an error. */
  datatype Reply = Accepted | Failed(message: string)

  /** `prev[room] || []`: a room without an entry has selected nothing. */
  function RoomList(m: Selections, room: string): seq<string>
  {
    if room in m then m[room] else []
  }

  /** `s.filter(opt => opt !== x)`: every occurrence of x removed and
      every other item kept (WithoutMultiset: with its multiplicity). */
  function Without(s: seq<string>, x: string): (r: seq<string>)
    ensures forall y :: y in r <==> y in s && y != x
  {
    if s == [] then []
    else
      assert s == [s[0]] + s[1..];
      (if s[0] == x then [] else [s[0]]) + Without(s[1..], x)
  }

  /** The filter keeps every item other than x as often as it occurs,
      and no copy of x. */
  lemma {:induction false} WithoutMultiset(s: seq<string>, x: string)
    ensures multiset(Without(s, x)) == multiset(s)[x := 0]
  {
    if s != [] {
      assert s == [s[0]] + s[1..];
      WithoutCons(s, x);
      WithoutMultiset(s[1..], x);
    }
  }

  /** Filtering out an item the list does not hold gives the list back. */
  lemma {:induction false} WithoutAbsent(s: seq<string>, x: string)
    requires x !in s
    ensures Without(s, x) == s
  {
    if s != [] {
      assert s == [s[0]] + s[1..];
      WithoutCons(s, x);
      WithoutAbsent(s[1..], x);
    }
  }

  /** The update handleOptionChange makes: Kitchen becomes exactly
      [option]; any other room drops the option if it was selected and
      gains it at the end if not; no other room changes. */
  function SelectOption(prev: Selections, room: string, option: string): (next: Selections)
    ensures next.Keys == prev.Keys + {room}
    ensures forall r :: r in prev && r != room ==> next[r] == prev[r]
    ensures room == KitchenRoom ==> next[room] == [option]
    ensures room != KitchenRoom && option in RoomList(prev, room) ==>
      && next[room] == Without(RoomList(prev, room), option)
      && option !in next[room] && multiset(next[room]) == multiset(RoomList(prev, room))[option := 0]
    ensures room != KitchenRoom && option !in RoomList(prev, room) ==>
      next[room] == RoomList(prev, room) + [option]
  {
    if room == KitchenRoom then prev[room := [option]]
    else
      var roomOptions := RoomList(prev, room);
      var updated := if option in roomOptions then Without(roomOptions, option) else roomOptions + [option];
      WithoutMultiset(roomOptions, option);
      prev[room := updated]
  }

  /** On one item, the filter keeps it exactly when it differs from x. */
  lemma WithoutSingle(y: string, x: string)
    ensures Without([y], x) == if y == x then [] else [y]
  {
    assert [y][1..] == [];
  }

  /** The filter works item by item: filtering a concatenation is the
      concatenation of the filtered parts, so the kept items stay in
      their order. With WithoutSingle this determines Without entirely. */
  lemma {:induction false} WithoutConcat(a: seq<string>, b: seq<string>, x: string)
    ensures Without(a + b, x) == Without(a, x) + Without(b, x)
  {
    if a == [] {
      assert a + b == b;
    } else {
      WithoutConcat(a[1..], b, x);
      WithoutConcatStep(a, b, x);
    }
  }

  /** The inductive step of WithoutConcat: the head of a is filtered
      first, and the rest is filtered as the concatenation of its parts. */
  lemma WithoutConcatStep(a: seq<string>, b: seq<string>, x: string)
    requires a != []
    requires Without(a[1..] + b, x) == Without(a[1..], x) + Without(b, x)
    ensures Without(a + b, x) == Without(a, x) + Without(b, x)
  {
    var head: seq<string> := if a[0] == x then [] else [a[0]];
    var restA, restB := Without(a[1..], x), Without(b, x);
    assert (a + b)[0] == a[0] && (a + b)[1..] == a[1..] + b;
    WithoutCons(a + b, x);
    WithoutCons(a, x);
    assert head + (restA + restB) == (head + restA) + restB;
  }

  /** One step of the filter on a non-empty list. */
  lemma WithoutCons(s: seq<string>, x: string)
    requires s != []
    ensures Without(s, x) == (if s[0] == x then [] else [s[0]]) + Without(s[1..], x)
  {
  }

  lemma {:induction false} WithoutAppended(s: seq<string>, x: string)
    requires x !in s
    ensures Without(s + [x], x) == s
  {
    if s == [] {
      assert [x][1..] == [];
    } else {
      assert (s + [x])[1..] == s[1..] + [x];
      WithoutAppended(s[1..], x);
    }
  }

  lemma {:induction false} SingleOccurrence(s: seq<string>, x: string)
    requires OptionCatalog.NoDuplicates(s) && x in s
    ensures multiset(s)[x] == 1
  {
    assert s == [s[0]] + s[1..];
    if s[0] == x {
      assert x !in s[1..] by {
        forall j | 0 <= j < |s[1..]| ensures s[1..][j] != x {
          assert s[1..][j] == s[j + 1];
        }
      }
    } else {
      SingleOccurrence(s[1..], x);
    }
  }

  /** Toggling an unselected option twice in a non-Kitchen room restores
      that room's list exactly (an absent room comes back as empty). */
  lemma ToggleTwiceAbsent(prev: Selections, room: string, option: string)
    requires room != KitchenRoom && option !in RoomList(prev, room)
    ensures SelectOption(SelectOption(prev, room, option), room, option) == prev[room := RoomList(prev, room)]
  {
    WithoutAppended(RoomList(prev, room), option);
  }

  /** Toggling a selected option twice in a duplicate-free non-Kitchen
      list gives back the same items, but moves the option to the end:
      the list itself comes back exactly when the option was already last. */
  lemma ToggleTwicePresent(prev: Selections, room: string, option: string)
    requires room != KitchenRoom && option in RoomList(prev, room)
    requires OptionCatalog.NoDuplicates(RoomList(prev, room))
    ensures var s := RoomList(prev, room);
      var twice := SelectOption(SelectOption(prev, room, option), room, option)[room];
      && multiset(twice) == multiset(s)
      && twice == Without(s, option) + [option]
      && (twice == s <==> s[|s| - 1] == option)
  {
    var s := RoomList(prev, room);
    var w := Without(s, option);
    var once := SelectOption(prev, room, option);
    assert once[room] == w;
    assert RoomList(once, room) == w;
    var twice := SelectOption(once, room, option)[room];
    assert twice == w + [option];
    RestoredItems(s, option);
    if s[|s| - 1] == option {
      LastRemovedAndRestored(s, option);
    }
  }

  lemma RestoredItems(s: seq<string>, x: string)
    requires OptionCatalog.NoDuplicates(s) && x in s
    ensures multiset(Without(s, x) + [x]) == multiset(s)
  {
    SingleOccurrence(s, x);
    WithoutMultiset(s, x);
    var m := multiset(s);
    assert multiset(Without(s, x) + [x]) == m[x := 0] + multiset{x};
    assert m[x := 0] + multiset{x} == m by {
      forall y ensures (m[x := 0] + multiset{x})[y] == m[y] {
      }
    }
  }

  lemma LastRemovedAndRestored(s: seq<string>, x: string)
    requires OptionCatalog.NoDuplicates(s) && s != [] && s[|s| - 1] == x
    ensures Without(s, x) + [x] == s
  {
    var init := s[..|s| - 1];
    assert s == init + [x];
    assert x !in init by {
      forall j | 0 <= j < |init| ensures init[j] != x {
        assert init[j] == s[j];
      }
    }
    WithoutAppended(init, x);
  }

  /** The shape every selection map the form builds has: the Kitchen
      entry holds one item and no room's list repeats an item. */
  ghost predicate SelectionsWellFormed(m: Selections)
  {
    && (KitchenRoom in m ==> |m[KitchenRoom]| == 1)
    && forall room :: room in m ==> OptionCatalog.NoDuplicates(m[room])
  }

  /** Every selection update keeps the selections well formed. */
  lemma SelectKeepsWellFormed(prev: Selections, room: string, option: string)
    requires SelectionsWellFormed(prev)
    ensures SelectionsWellFormed(SelectOption(prev, room, option))
  {
    ToggleKeepsNoDuplicates(prev, room, option);
  }

  /** A selection update never introduces a repeated item into the room's list. */
  lemma ToggleKeepsNoDuplicates(prev: Selections, room: string, option: string)
    requires OptionCatalog.NoDuplicates(RoomList(prev, room))
    ensures OptionCatalog.NoDuplicates(SelectOption(prev, room, option)[room])
  {
    var s := RoomList(prev, room);
    if room != KitchenRoom {
      if option in s {
        WithoutKeepsNoDuplicates(s, option);
      } else {
        OptionCatalog.AppendKeepsNoDuplicates(s, option);
      }
    }
  }

  lemma {:induction false} WithoutKeepsNoDuplicates(s: seq<string>, x: string)
    requires OptionCatalog.NoDuplicates(s)
    ensures OptionCatalog.NoDuplicates(Without(s, x))
  {
    if s != [] {
      var tail := s[1..];
      assert OptionCatalog.NoDuplicates(tail) by {
        forall i, j | 0 <= i < j < |tail| ensures tail[i] != tail[j] {
          assert tail[i] == s[i + 1] && tail[j] == s[j + 1];
        }
      }
      assert s[0] !in tail by {
        forall j | 0 <= j < |tail| ensures tail[j] != s[0] {
          assert tail[j] == s[j + 1];
        }
      }
      WithoutKeepsNoDuplicates(tail, x);
      if s[0] != x {
        PrependKeepsNoDuplicates(s[0], Without(tail, x));
      }
    }
  }

  lemma PrependKeepsNoDuplicates(y: string, w: seq<string>)
    requires OptionCatalog.NoDuplicates(w) && y !in w
    ensures OptionCatalog.NoDuplicates([y] + w)
  {
  }

  /** The update a successful handleAddOption makes to the offered
      options: the room's list gains the option at its end, nothing else
      changes. */
  function AddedLocally(offered: Selections, room: string, option: string): (next: Selections)
    ensures next.Keys == offered.Keys + {room}
    ensures next[room] == RoomList(offered, room) + [option]
    ensures forall r :: r in offered && r != room ==> next[r] == offered[r]
  {
    offered[room := RoomList(offered, room) + [option]]
  }

  /** When the client's copy of the options is the server's entry for its
      BHK type and the server accepts the trimmed option, the client's
      local append reproduces the server's new entry exactly. */
  lemma LocalAppendMatchesServer(t: OptionCatalog.Table, bhk: string, room: string, raw: string)
    requires OptionCatalog.Rejection(t, OptionCatalog.AddRequest(Some(bhk), Some(room), Some(Trim(raw)))).None?
    ensures AddedLocally(t[bhk], room, Trim(raw))
      == OptionCatalog.Apply(t, OptionCatalog.AddRequest(Some(bhk), Some(room), Some(Trim(raw))))[bhk]
  {
  }

  /** An absent field of the contact data reads as the empty string; both
      are falsy. */
  function Field(data: map<string, string>, id: string): string
  {
    if id in data then data[id] else ""
  }

  /** `/^[0-9]{10}$/`: exactly ten ASCII digits. */
  predicate IsTenDigitPhone(s: string)
  {
    |s| == 10 && forall i :: 0 <= i < |s| ==> '0' <= s[i] <= '9'
  }

  /** The four contact checks of step 3, each on its own field. */
  predicate NameOk(name: string)
  {
    |name| >= 2
  }

  predicate EmailOk(email: string, emailPattern: string -> bool)
  {
    email != "" && emailPattern(email)
  }

  predicate PropertyOk(property: string)
  {
    !AllWhiteSpace(property)
  }

  const ContactFields: set<string> := {NameField, EmailField, PhoneField, PropertyField}

  /** Whether the field named id fails its step-3 check, written as the
      component tests it. */
  predicate FieldFails(data: map<string, string>, emailPattern: string -> bool, id: string)
  {
    var value := Field(data, id);
    if id == NameField then value == "" || |value| < 2
    else if id == EmailField then value == "" || !emailPattern(value)
    else if id == PhoneField then value == "" || !IsTenDigitPhone(value)
    else value == "" || |Trim(value)| == 0
  }

  function ErrorMessage(id: string): string
  {
    if id == NameField then "Name must be at least 2 characters long"
    else if id == EmailField then "Please enter a valid email address"
    else if id == PhoneField then "Please enter a valid 10-digit phone number"
    else "Property name is required"
  }

  /** The contact checks of step 3: the error map names exactly the
      fields that fail (the e-mail pattern is a parameter, not
      interpreted here). */
  function Step3Errors(data: map<string, string>, emailPattern: string -> bool): (errs: map<string, string>)
    ensures errs.Keys <= ContactFields
    ensures NameField in errs <==> !NameOk(Field(data, NameField))
    ensures EmailField in errs <==> !EmailOk(Field(data, EmailField), emailPattern)
    ensures PhoneField in errs <==> !IsTenDigitPhone(Field(data, PhoneField))
    ensures PropertyField in errs <==> !PropertyOk(Field(data, PropertyField))
  {
    map id | id in ContactFields && FieldFails(data, emailPattern, id) :: ErrorMessage(id)
  }

  /** All four contact checks pass. */
  predicate ContactValid(data: map<string, string>, emailPattern: string -> bool)
  {
    && NameOk(Field(data, NameField))
    && EmailOk(Field(data, EmailField), emailPattern)
    && IsTenDigitPhone(Field(data, PhoneField))
    && PropertyOk(Field(data, PropertyField))
  }

  /** The contact step passes, that is the error map is empty, exactly
      when no check fails. */
  lemma Step3PassesIff(data: map<string, string>, emailPattern: string -> bool)
    ensures Step3Errors(data, emailPattern) == map[] <==> ContactValid(data, emailPattern)
  {
  }

  predicate AnyRoomSelected(m: Selections)
  {
    exists room :: room in m && |m[room]| > 0
  }

  /** The state of the form component. */
  class FormState {
    var step: int
    var selectedBHK: string
    var selectedOptions: Selections
    var carpetArea: string
    var formOptions: Selections
    var newOption: string
    var currentRoom: string
    var errors: map<string, string>
    var isSubmitting: bool
    var formData: map<string, string>

    ghost predicate Valid()
      reads this
    {
      && FirstStep <= step <= LastStep
      && SelectionsWellFormed(selectedOptions)
    }

    /** The contact data as the form starts with (and is reset to). */
    static function EmptyContact(): map<string, string>
    {
      map[NameField := "", EmailField := "", PhoneField := "", PropertyField := ""]
    }

    constructor ()
      ensures Valid() && step == FirstStep
      ensures selectedBHK == "" && selectedOptions == map[] && carpetArea == ""
      ensures formOptions == map[] && newOption == "" && currentRoom == ""
      ensures errors == map[] && !isSubmitting && formData == EmptyContact()
    {
      step := FirstStep;
      selectedBHK := "";
      selectedOptions := map[];
      carpetArea := "";
      formOptions := map[];
      newOption := "";
      currentRoom := "";
      errors := map[];
      isSubmitting := false;
      formData := EmptyContact();
    }

    /** handleSelect: choose a BHK type and drop every selection. */
    method HandleSelect(bhk: string)
      requires Valid()
      modifies this`selectedBHK, this`selectedOptions
      ensures Valid()
      ensures selectedBHK == bhk && selectedOptions == map[]
    {
      selectedBHK := bhk;
      selectedOptions := map[];
    }

    /** fetchOptions: the server's rooms for the chosen BHK type when a
        non-empty object arrives; None (a failed request, an error answer,
        an unreadable body) and an empty object both clear the options. */
    method ReceiveOptions(data: Option<Selections>)
      modifies this`formOptions
      ensures data.Some? && data.value != map[] ==> formOptions == data.value
      ensures data.None? || data.value == map[] ==> formOptions == map[]
    {
      if data.Some? && |data.value| > 0 {
        formOptions := data.value;
      } else {
        formOptions := map[];
      }
    }

    /** handleOptionChange: Kitchen is single-choice, every other room
        toggles the option; no other room changes. */
    method HandleOptionChange(room: string, option: string)
      requires Valid()
      modifies this`selectedOptions
      ensures Valid()
      ensures selectedOptions == SelectOption(old(selectedOptions), room, option)
    {
      SelectKeepsWellFormed(selectedOptions, room, option);
      selectedOptions := SelectOption(selectedOptions, room, option);
    }

    /** handleInputChange: store the field's new value and blank a
        non-empty error message shown for that field. */
    method HandleInputChange(id: string, value: string)
      modifies this`formData, this`errors
      ensures formData == old(formData)[id := value]
      ensures id in old(errors) && old(errors)[id] != "" ==> errors == old(errors)[id := ""]
      ensures !(id in old(errors) && old(errors)[id] != "") ==> errors == old(errors)
    {
      formData := formData[id := value];
      if id in errors && errors[id] != "" {
        errors := errors[id := ""];
      }
    }

    /** handleAddOption. A blank option or no current room: the error
        map is replaced with one addOption error. Otherwise the trimmed option goes to the server;
        when it is accepted the option is appended to the current room's
        list only and the input is cleared, and when it fails the error
        map is replaced with one carrying the server's message and the options are unchanged. */
    method HandleAddOption(reply: Reply)
      modifies this`errors, this`formOptions, this`newOption, this`isSubmitting
      ensures Trim(old(newOption)) == "" || currentRoom == "" ==>
        && errors == map[AddOptionKey := InvalidOptionMessage]
        && formOptions == old(formOptions) && newOption == old(newOption)
        && isSubmitting == old(isSubmitting)
      ensures Trim(old(newOption)) != "" && currentRoom != "" ==> !isSubmitting
      ensures Trim(old(newOption)) != "" && currentRoom != "" && reply.Failed? ==>
        && errors == map[AddOptionKey := reply.message]
        && formOptions == old(formOptions) && newOption == old(newOption)
      ensures Trim(old(newOption)) != "" && currentRoom != "" && reply.Accepted? ==>
        && formOptions == AddedLocally(old(formOptions), currentRoom, Trim(old(newOption)))
        && newOption == "" && errors == old(errors)
    {
      var option := Trim(newOption);
      if option == "" || currentRoom == "" {
        errors := map[AddOptionKey := InvalidOptionMessage];
        return;
      }
      isSubmitting := true;
      if reply.Accepted? {
        formOptions := AddedLocally(formOptions, currentRoom, option);
        newOption := "";
      } else {
        errors := map[AddOptionKey := reply.message];
      }
      isSubmitting := false;
    }

    /** validateStep3: the errors become exactly the failing fields, and
        the answer is whether none failed. */
    method ValidateStep3(emailPattern: string -> bool) returns (ok: bool)
      modifies this`errors
      ensures errors == Step3Errors(formData, emailPattern)
      ensures ok <==> ContactValid(formData, emailPattern)
      ensures ok <==> errors == map[]
    {
      errors := Step3Errors(formData, emailPattern);
      Step3PassesIff(formData, emailPattern);
      ok := |errors| == 0;
    }

    /** isStepComplete: step 1 needs a BHK type, step 2 a non-empty room
        selection or a carpet area that is not all white space, and step
        3 is always complete. */
    function IsStepComplete(): (r: bool)
      reads this
      ensures step == 1 ==> (r <==> selectedBHK != "")
      ensures step == 2 ==> (r <==>
        (exists room :: room in selectedOptions && selectedOptions[room] != [])
        || exists i :: 0 <= i < |carpetArea| && !IsWhiteSpace(carpetArea[i]))
      ensures step != 1 && step != 2 ==> r
    {
      if step == 1 then selectedBHK != ""
      else if step == 2 then AnyRoomSelected(selectedOptions) || Trim(carpetArea) != ""
      else true
    }

    /** nextStep: one step forward unless already at the last. */
    method NextStep()
      requires Valid()
      modifies this`step
      ensures Valid()
      ensures old(step) < LastStep ==> step == old(step) + 1
      ensures old(step) == LastStep ==> step == old(step)
    {
      if step < LastStep {
        step := step + 1;
      }
    }

    /** prevStep: one step back unless already at the first. */
    method PrevStep()
      requires Valid()
      modifies this`step
      ensures Valid()
      ensures old(step) > FirstStep ==> step == old(step) - 1
      ensures old(step) == FirstStep ==> step == old(step)
    {
      if step > FirstStep {
        step := step - 1;
      }
    }

    /** The last-step branch of handleSubmit. An invalid contact stops
        it with the field errors set; a valid one is sent, and on success
        the form returns to step 1 with the BHK type, the selections, the
        carpet area and the contact data cleared, while on failure the
        error carries the reply's message (or a fixed one when the
        message is empty). */
    method SubmitContact(emailPattern: string -> bool, reply: Reply)
      requires Valid() && step == LastStep
      modifies this`step, this`errors, this`isSubmitting, this`selectedBHK,
        this`selectedOptions, this`carpetArea, this`formData
      ensures Valid()
      ensures !ContactValid(old(formData), emailPattern) ==>
        && errors == Step3Errors(old(formData), emailPattern) && step == LastStep
        && unchanged(this`formData, this`selectedBHK, this`selectedOptions, this`carpetArea, this`isSubmitting)
      ensures ContactValid(old(formData), emailPattern) ==> !isSubmitting
      ensures ContactValid(old(formData), emailPattern) && reply.Accepted? ==>
        && step == FirstStep && selectedBHK == "" && selectedOptions == map[]
        && carpetArea == "" && formData == EmptyContact() && errors == map[]
      ensures ContactValid(old(formData), emailPattern) && reply.Failed? ==>
        && step == LastStep
        && unchanged(this`formData, this`selectedBHK, this`selectedOptions, this`carpetArea)
        && errors == map[SubmitKey := if reply.message == "" then SubmissionFailedMessage else reply.message]
    {
      var ok := ValidateStep3(emailPattern);
      if !ok {
        return;
      }
      isSubmitting := true;
      if reply.Accepted? {
        Reset();
      } else {
        errors := map[SubmitKey := if reply.message == "" then SubmissionFailedMessage else reply.message];
      }
      isSubmitting := false;
    }

    /** What a successful submission clears: back to step 1 with no BHK
        type, no selections, no carpet area and blank contact data. */
    method Reset()
      modifies this`step, this`selectedBHK, this`selectedOptions, this`carpetArea, this`formData
      ensures Valid() && step == FirstStep
      ensures selectedBHK == "" && selectedOptions == map[] && carpetArea == ""
      ensures formData == EmptyContact()
    {
      step := FirstStep;
      selectedBHK := "";
      selectedOptions := map[];
      carpetArea := "";
      formData := EmptyContact();
    }

    /** handleSubmit: on the last step it submits the contact data,
        before it it moves to the next step. */
    method HandleSubmit(emailPattern: string -> bool, reply: Reply)
      requires Valid()
      modifies this`step, this`errors, this`isSubmitting, this`selectedBHK,
        this`selectedOptions, this`carpetArea, this`formData
      ensures Valid()
      ensures old(step) < LastStep ==>
        && step == old(step) + 1
        && unchanged(this`errors, this`isSubmitting, this`selectedBHK, this`selectedOptions)
        && unchanged(this`carpetArea, this`formData)
      ensures old(step) == LastStep && !ContactValid(old(formData), emailPattern) ==>
        && errors == Step3Errors(old(formData), emailPattern) && step == LastStep
        && unchanged(this`formData, this`selectedBHK, this`selectedOptions, this`carpetArea, this`isSubmitting)
      ensures old(step) == LastStep && ContactValid(old(formData), emailPattern) && reply.Accepted? ==>
        && step == FirstStep && selectedBHK == "" && selectedOptions == map[]
        && carpetArea == "" && formData == EmptyContact() && errors == map[] && !isSubmitting
      ensures old(step) == LastStep && ContactValid(old(formData), emailPattern) && reply.Failed? ==>
        && step == LastStep && !isSubmitting
        && unchanged(this`formData, this`selectedBHK, this`selectedOptions, this`carpetArea)
        && errors == map[SubmitKey := if reply.message == "" then SubmissionFailedMessage else reply.message]
    {
      if step == LastStep {
        SubmitContact(emailPattern, reply);
      } else {
        NextStep();
      }
    }
  }
}
