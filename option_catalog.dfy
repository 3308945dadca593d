/** The server's option catalog (api/src/routes/formRoutes.js): a table
    from BHK type to room category to the ordered list of selectable item
    names, read by the options lookup and extended in place by the
    custom-option handler. There is one table for the whole process:
    an added option is seen by every later visitor. */
module OptionCatalog {
  import opened Outcomes

  /** Room category -> ordered item names, for one BHK type. */
  type Rooms = map<string, seq<string>>
  /** BHK type -> its rooms. */
  type Table = map<string, Rooms>

  /** Categories the custom-option handler never extends. */
  const FrozenCategories: set<string> := {"Kitchen", "WholeHousePainting"}

  /** Bounds on the length of a custom option, inclusive. */
  const MinOptionLength := 2
  const MaxOptionLength := 50

  const LivingRoomItems: seq<string> := ["TV Unit", "Sofa", "Crockery Unit", "Shoe Rack", "Console"]
  const KitchenItems: seq<string> := ["L Shape", "U Shape", "|| Shape", "G Shape", "| Shape"]
  const BedroomItems: seq<string> := ["Wardrobe + Lofts", "Bed", "Bed Side Tables", "Dresser", "Study"]
  const PaintingItems: seq<string> := ["Enter Carpet Area"]
  const CeilingItems: seq<string> := ["Fire pipe Boxing", "Basic", "peripheral", "Custom Design"]

  /** The table as the server starts with it. */
  function InitialOptions(): Table
  {
    map[
      "1 BHK" := map[
        "LivingRoom" := LivingRoomItems,
        "Kitchen" := KitchenItems,
        "MasterBedroom" := BedroomItems,
        "WholeHousePainting" := PaintingItems,
        "FalseCeilingElectrical" := CeilingItems],
      "2 BHK" := map[
        "LivingRoom" := LivingRoomItems,
        "Kitchen" := KitchenItems,
        "MasterBedroom" := BedroomItems,
        "CommonBedroom" := BedroomItems,
        "WholeHousePainting" := PaintingItems,
        "FalseCeilingElectrical" := CeilingItems],
      "3 BHK" := map[
        "LivingRoom" := LivingRoomItems,
        "Kitchen" := KitchenItems,
        "MasterBedroom" := BedroomItems,
        "CommonBedroom" := BedroomItems,
        "MasterBedroom2" := BedroomItems,
        "WholeHousePainting" := PaintingItems,
        "FalseCeilingElectrical" := CeilingItems]
    ]
  }

  /** The error the options lookup answers an unknown BHK type with. */
  datatype LookupError = InvalidBhkType

  /** The five rejections of the custom-option handler, in the order it
      tests for them. */
  datatype AddError =
    | FieldsRequired        // "All fields are required"
    | InvalidBhkOrCategory  // "Invalid BHK type or category"
    | ImmutableCategory     // "Cannot add custom options to this category"
    | LengthOutOfRange      // "Custom option must be between 2 and 50 characters"
    | AlreadyExists         // "Option already exists"

  /** The body of a custom-option request; an absent field is None. */
  datatype AddRequest = AddRequest(bhkType: Option<string>, category: Option<string>, customOption: Option<string>)

  /** A JavaScript string field is falsy when it is absent or empty. */
  predicate Falsy(f: Option<string>)
  {
    f.None? || f.value == ""
  }

  predicate HasList(t: Table, bhk: string, category: string)
  {
    bhk in t && category in t[bhk]
  }

  predicate NoDuplicates(s: seq<string>)
  {
    forall i, j :: 0 <= i < j < |s| ==> s[i] != s[j]
  }

  /** The five rules, each stated on its own. */
  predicate FieldsGiven(req: AddRequest)
  {
    !Falsy(req.bhkType) && !Falsy(req.category) && !Falsy(req.customOption)
  }

  predicate ListExists(t: Table, req: AddRequest)
  {
    FieldsGiven(req) && HasList(t, req.bhkType.value, req.category.value)
  }

  predicate Extensible(req: AddRequest)
  {
    req.category.Some? && req.category.value !in FrozenCategories
  }

  predicate LengthInRange(req: AddRequest)
  {
    req.customOption.Some? && MinOptionLength <= |req.customOption.value| <= MaxOptionLength
  }

  predicate IsNew(t: Table, req: AddRequest)
    requires ListExists(t, req)
  {
    req.customOption.value !in t[req.bhkType.value][req.category.value]
  }

  /** Every condition the handler demands of a request before it adds. */
  predicate Acceptable(t: Table, req: AddRequest)
  {
    ListExists(t, req) && Extensible(req) && LengthInRange(req) && IsNew(t, req)
  }

  /** The handler's validation chain: None exactly when every rule holds,
      otherwise the first rule the request breaks, with the rules taken in
      the order the handler tests them. A missing field is reported
      whatever the table holds; the length is that of the raw, untrimmed
      string. */
  function Rejection(t: Table, req: AddRequest): (e: Option<AddError>)
    ensures e == None <==> Acceptable(t, req)
    ensures e == Some(FieldsRequired) <==> !FieldsGiven(req)
    ensures e == Some(InvalidBhkOrCategory) <==> FieldsGiven(req) && !ListExists(t, req)
    ensures e == Some(ImmutableCategory) <==> ListExists(t, req) && !Extensible(req)
    ensures e == Some(LengthOutOfRange) <==>
      ListExists(t, req) && Extensible(req) && !LengthInRange(req)
    ensures e == Some(AlreadyExists) <==>
      ListExists(t, req) && Extensible(req) && LengthInRange(req) && !IsNew(t, req)
  {
    if Falsy(req.bhkType) || Falsy(req.category) || Falsy(req.customOption) then Some(FieldsRequired)
    else
      var bhk, category, option := req.bhkType.value, req.category.value, req.customOption.value;
      if !HasList(t, bhk, category) then Some(InvalidBhkOrCategory)
      else if category == "Kitchen" || category == "WholeHousePainting" then Some(ImmutableCategory)
      else if |option| < MinOptionLength || |option| > MaxOptionLength then Some(LengthOutOfRange)
      else if option in t[bhk][category] then Some(AlreadyExists)
      else None
  }

  /** The table after pushing option onto the (bhk, category) list: that
      list gains option at its end and every other list, and every key,
      stays as it was. */
  function Appended(t: Table, bhk: string, category: string, option: string): (t': Table)
    requires HasList(t, bhk, category)
    ensures t'.Keys == t.Keys
    ensures forall b :: b in t ==> t'[b].Keys == t[b].Keys
    ensures t'[bhk][category] == t[bhk][category] + [option]
    ensures forall b, c :: HasList(t, b, c) && (b, c) != (bhk, category) ==> t'[b][c] == t[b][c]
  {
    t[bhk := t[bhk][category := t[bhk][category] + [option]]]
  }

  /** The table after one custom-option request, accepted or not. */
  function Apply(t: Table, req: AddRequest): Table
  {
    if Rejection(t, req).None? then
      Appended(t, req.bhkType.value, req.category.value, req.customOption.value)
    else t
  }

  /** The table after a sequence of requests handled one after another. */
  function Run(t: Table, reqs: seq<AddRequest>): Table
    decreases |reqs|
  {
    if reqs == [] then t else Run(Apply(t, reqs[0]), reqs[1..])
  }

  /** Same BHK types, and the same categories under each. */
  predicate SameShape(t: Table, u: Table)
  {
    && t.Keys == u.Keys
    && forall b :: b in t ==> t[b].Keys == u[b].Keys
  }

  ghost predicate ListsDuplicateFree(t: Table)
  {
    forall b, c :: HasList(t, b, c) ==> NoDuplicates(t[b][c])
  }

  /** What holds of a table t that grew from base u by custom options:
      the same shape, no list with a repeated item, every list of u still
      a prefix of the one in t, and the frozen categories exactly as in u. */
  ghost predicate GrownFrom(u: Table, t: Table)
  {
    && SameShape(t, u)
    && ListsDuplicateFree(t)
    && (forall b, c :: HasList(t, b, c) ==> u[b][c] <= t[b][c])
    && (forall b, c :: HasList(t, b, c) && c in FrozenCategories ==> t[b][c] == u[b][c])
  }

  /** What holds of the table in every state the server can reach. */
  ghost predicate CatalogInvariant(t: Table)
  {
    GrownFrom(InitialOptions(), t)
  }

  lemma InitialInvariant()
    ensures CatalogInvariant(InitialOptions())
  {
    assert NoDuplicates(LivingRoomItems);
    assert NoDuplicates(KitchenItems);
    assert NoDuplicates(BedroomItems);
    assert NoDuplicates(CeilingItems);
  }

  lemma AppendKeepsNoDuplicates(s: seq<string>, x: string)
    requires NoDuplicates(s) && x !in s
    ensures NoDuplicates(s + [x])
  {
  }

  /** One request, accepted or rejected, keeps every list duplicate-free:
      the duplicate check runs before the push. */
  lemma ApplyKeepsNoDuplicates(t: Table, req: AddRequest)
    requires ListsDuplicateFree(t)
    ensures ListsDuplicateFree(Apply(t, req))
  {
  }

  /** One request keeps a table grown from u. */
  lemma {:induction false} ApplyKeepsGrowth(u: Table, t: Table, req: AddRequest)
    requires GrownFrom(u, t)
    ensures GrownFrom(u, Apply(t, req))
  {
    ApplyKeepsNoDuplicates(t, req);
    if Rejection(t, req).None? {
      var bhk, category, option := req.bhkType.value, req.category.value, req.customOption.value;
      var t' := Appended(t, bhk, category, option);
      forall b, c | HasList(t', b, c) ensures u[b][c] <= t'[b][c] {
        assert HasList(t, b, c);
      }
      forall b, c | HasList(t', b, c) && c in FrozenCategories ensures t'[b][c] == u[b][c] {
        assert HasList(t, b, c);
      }
    }
  }

  /** Any sequence of requests keeps a table grown from u. */
  lemma {:induction false} RunKeepsGrowth(u: Table, t: Table, reqs: seq<AddRequest>)
    requires GrownFrom(u, t)
    ensures GrownFrom(u, Run(t, reqs))
    decreases |reqs|
  {
    if reqs != [] {
      ApplyKeepsGrowth(u, t, reqs[0]);
      RunKeepsGrowth(u, Apply(t, reqs[0]), reqs[1..]);
    }
  }

  /** Every table the server reaches from its initial one keeps the
      invariant: no list ever holds a repeated item and Kitchen and
      WholeHousePainting never change. */
  lemma ReachableKeepsInvariant(reqs: seq<AddRequest>)
    ensures CatalogInvariant(Run(InitialOptions(), reqs))
  {
    InitialInvariant();
    RunKeepsGrowth(InitialOptions(), InitialOptions(), reqs);
  }

  /** A frozen category's list is the same after any sequence of
      requests, whatever table they start from. */
  lemma {:induction false} RunKeepsFrozen(t: Table, reqs: seq<AddRequest>, bhk: string, category: string)
    requires HasList(t, bhk, category) && category in FrozenCategories
    ensures HasList(Run(t, reqs), bhk, category)
    ensures Run(t, reqs)[bhk][category] == t[bhk][category]
    decreases |reqs|
  {
    if reqs != [] {
      RunKeepsFrozen(Apply(t, reqs[0]), reqs[1..], bhk, category);
    }
  }

  /** Repeating an accepted request at once is rejected as a duplicate. */
  lemma RepeatIsDuplicate(t: Table, req: AddRequest)
    requires Rejection(t, req).None?
    ensures Rejection(Apply(t, req), req) == Some(AlreadyExists)
  {
  }

  /** The shared, process-wide options table and its two handlers. */
  class OptionStore {
    var options: Table

    ghost predicate Valid()
      reads this
    {
      CatalogInvariant(options)
    }

    constructor ()
      ensures Valid() && options == InitialOptions()
    {
      options := InitialOptions();
      InitialInvariant();
    }

    /** GET /options/:bhkType: the live entry for a known BHK type, the
        Invalid BHK type error for any other key; in a reachable state the
        known types are exactly the three the table starts with. */
    function GetOptions(bhkType: string): (r: Result<Rooms, LookupError>)
      reads this
      ensures r.Ok? <==> bhkType in options
      ensures r.Ok? ==> r.value == options[bhkType]
      ensures r.Err? ==> r.error == InvalidBhkType
      ensures Valid() ==> (r.Ok? <==> bhkType in {"1 BHK", "2 BHK", "3 BHK"})
    {
      if bhkType in options then Ok(options[bhkType]) else Err(InvalidBhkType)
    }

    /** POST /addCustomOption: on a rejection the table is unchanged and
        the first broken rule is returned; on success the option is
        pushed onto the shared list, which is returned, and the options
        lookup for that BHK type shows it at once. */
    method AddCustomOption(req: AddRequest) returns (r: Result<seq<string>, AddError>)
      requires Valid()
      modifies this
      ensures Valid()
      ensures options == Apply(old(options), req)
      ensures Rejection(old(options), req).Some? ==>
        r == Err(Rejection(old(options), req).value) && options == old(options)
      ensures Rejection(old(options), req).None? ==>
        && r.Ok?
        && r.value == old(options)[req.bhkType.value][req.category.value] + [req.customOption.value]
        && GetOptions(req.bhkType.value).Ok?
        && GetOptions(req.bhkType.value).value[req.category.value] == r.value
    {
      ApplyKeepsGrowth(InitialOptions(), options, req);
      var e := Rejection(options, req);
      if e.Some? {
        return Err(e.value);
      }
      var bhk, category, option := req.bhkType.value, req.category.value, req.customOption.value;
      options := Appended(options, bhk, category, option);
      r := Ok(options[bhk][category]);
    }
  }
}
