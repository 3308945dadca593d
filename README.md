# Home-interior quotation form: option catalog and form state machine

This project models two sequential pieces of a home-interior quotation
application.

- **The server's option catalog** (`api/src/routes/formRoutes.js`). It is
  a nested table: BHK type, then room category, then an ordered list of
  item names. The table starts as a fixed literal with three BHK types.
  `GET /options/:bhkType` looks a BHK type up in it. `POST
  /addCustomOption` runs five checks, in a fixed order:
  1. every field is given;
  2. the BHK type and the category exist;
  3. the category is not Kitchen or WholeHousePainting;
  4. the option is 2 to 50 characters long;
  5. the option is not already in the list.

  When all five pass, the handler pushes the option onto the list in
  place. Module `OptionCatalog`: class `OptionStore` holds the table as a
  `map<string, map<string, seq<string>>>`. The pure functions
  `Rejection`, `Appended`, `Apply` and `Run` describe one request and a
  sequence of requests.
- **The client's three-step form** (`frontend/app/MultiStepForm/page.jsx`).
  The steps are: pick a BHK type, pick items per room (Kitchen is
  single-choice, other rooms toggle), then enter contact details.
  Module `MultiStepForm`: class `FormState` has the component's state as
  fields and its event handlers as methods. The pure functions
  `SelectOption`, `Without`, `AddedLocally` and `Step3Errors` specify
  those methods.
- Two helper modules: `Outcomes` (Option, Result) and `JsStrings`
  (JavaScript's `String.prototype.trim` over the exact ECMAScript
  white-space set).

Facts about the code that the model keeps:
- The server keeps one table for the whole process. An added option goes
  into that table, and every later visitor sees it.
- The options lookup returns the live table entry, not a copy.
- The length check is on the raw, untrimmed option.

Inputs the code gets from outside become method parameters:
- `ReceiveOptions` takes the result of fetching the options.
- `HandleAddOption` and `HandleSubmit` take the server's reply.
- `ValidateStep3` and `HandleSubmit` take the e-mail regular expression
  as a predicate, `emailPattern`.

Toggling a selected option twice in a non-Kitchen room does not always
give back the original list. The option comes back at the end of the
list, so only the multiset of items is restored.
`ToggleTwiceAbsent` proves that the list comes back unchanged when the
option was not selected at first. `MultiStepForm.ToggleTwicePresent`
shows that, when it was selected, the list comes back only if the
option was last.

## Model

| member | source | states |
|---|---|---|
| `OptionCatalog.InitialInvariant` | api/src/routes/formRoutes.js:5-30 | The initial table satisfies the catalog invariant: no list repeats an item, and the frozen categories hold their initial lists. |
| `OptionCatalog.Rejection` | api/src/routes/formRoutes.js:54-69 | The handler accepts exactly when all five rules hold. Otherwise it reports the first broken rule, in the handler's order: a missing or empty field (whatever the table holds), an unknown BHK type or category, Kitchen/WholeHousePainting, a raw length outside 2..50, a duplicate. |
| `OptionCatalog.Appended` | api/src/routes/formRoutes.js:70 | The push adds the option at the end of the target list. Every other (BHK, category) list and every key stays as it was. |
| `OptionCatalog.ApplyKeepsNoDuplicates` | api/src/routes/formRoutes.js:67-70 | Because the duplicate check runs before the push, one request keeps every list duplicate-free. |
| `OptionCatalog.ApplyKeepsGrowth` | api/src/routes/formRoutes.js:58-70 | One request keeps the table's shape. It keeps lists duplicate-free, keeps each earlier list as a prefix, and leaves the frozen categories untouched. |
| `OptionCatalog.RunKeepsGrowth` | api/src/routes/formRoutes.js:53-72 | The same holds after any sequence of requests handled one after another. |
| `OptionCatalog.ReachableKeepsInvariant` | api/src/routes/formRoutes.js:5-72 | Every table reachable from the initial one by requests satisfies the catalog invariant. |
| `OptionCatalog.RunKeepsFrozen` | api/src/routes/formRoutes.js:61-63 | A Kitchen or WholeHousePainting list is identical after any sequence of requests. |
| `OptionCatalog.RepeatIsDuplicate` | api/src/routes/formRoutes.js:67-70 | Repeating an accepted request immediately is rejected as `Option already exists`. |
| `OptionCatalog.OptionStore.constructor` | api/src/routes/formRoutes.js:5-30 | The store starts with the literal table, in a valid state. |
| `OptionCatalog.OptionStore.GetOptions` | api/src/routes/formRoutes.js:32-41 | A known BHK type yields exactly the live entry. Any other key yields `Invalid BHK type`. In a reachable state the known keys are exactly "1 BHK", "2 BHK" and "3 BHK". |
| `OptionCatalog.OptionStore.AddCustomOption` | api/src/routes/formRoutes.js:53-72 | On a rejection the table is unchanged and the first broken rule is returned. On success the shared table becomes the old one with the option pushed. The returned list is the old list plus the option, and the lookup shows that list at once. The invariant is kept. |
| `JsStrings.Trim` | frontend/app/MultiStepForm/page.jsx:128 | `trim()` gives the empty string exactly when the input is all ECMAScript white space. Otherwise the result is the stretch between the leading and trailing white space, and it neither starts nor ends with white space. |
| `JsStrings.TrimIdempotent` | frontend/app/MultiStepForm/page.jsx:128 | A property of the `trim()` used here: trimming its result again changes nothing. |
| `MultiStepForm.Without` | frontend/app/MultiStepForm/page.jsx:107 | `filter(opt => opt !== option)` keeps an item exactly when it was in the list and differs from the option. |
| `MultiStepForm.WithoutMultiset` | frontend/app/MultiStepForm/page.jsx:107 | The filter removes every occurrence of the option and keeps every other item with its multiplicity. |
| `MultiStepForm.WithoutAbsent` | frontend/app/MultiStepForm/page.jsx:107 | Filtering out an option the list does not hold gives the list back unchanged. |
| `MultiStepForm.WithoutSingle` | frontend/app/MultiStepForm/page.jsx:107 | On a one-item list the filter keeps the item exactly when it differs from the option. |
| `MultiStepForm.WithoutConcat` | frontend/app/MultiStepForm/page.jsx:107 | Filtering a concatenation is concatenating the filtered parts, so the kept items keep their order. With `WithoutSingle` this fixes the result completely. |
| `MultiStepForm.SelectOption` | frontend/app/MultiStepForm/page.jsx:100-111 | Kitchen becomes exactly `[option]`. Another room loses the option if it was selected (its list becomes `Without` of the old one, other items in their order), or gains it at the end if not. A missing room counts as empty. All other rooms are unchanged. |
| `MultiStepForm.ToggleTwiceAbsent` | frontend/app/MultiStepForm/page.jsx:105-109 | Toggling an unselected option twice restores the room's list exactly. |
| `MultiStepForm.ToggleTwicePresent` | frontend/app/MultiStepForm/page.jsx:105-109 | Toggling a selected option twice in a duplicate-free list restores the same items, with the option moved to the end. The list itself comes back exactly when the option was last. |
| `MultiStepForm.SelectKeepsWellFormed` | frontend/app/MultiStepForm/page.jsx:100-111 | Every selection update keeps the whole selection map well formed: the Kitchen entry holds one item and no room's list repeats an item. |
| `MultiStepForm.ToggleKeepsNoDuplicates` | frontend/app/MultiStepForm/page.jsx:102-109 | A selection update never creates a repeated item in the room's list. |
| `MultiStepForm.AddedLocally` | frontend/app/MultiStepForm/page.jsx:153-156 | After an accepted add, the current room's offered list gains the option at its end. No other room changes. |
| `MultiStepForm.LocalAppendMatchesServer` | frontend/app/MultiStepForm/page.jsx:140-156 | When the client held the server's entry and the server accepts the trimmed option, the client's local append equals the server's new entry. |
| `MultiStepForm.Step3Errors` | frontend/app/MultiStepForm/page.jsx:166-185 | The error map names exactly the failing fields: name shorter than 2, e-mail empty or not matching the pattern, phone not exactly ten ASCII digits, property name all white space. |
| `MultiStepForm.Step3PassesIff` | frontend/app/MultiStepForm/page.jsx:186-187 | The error map is empty exactly when all four checks pass (`ContactValid`). |
| `MultiStepForm.FormState.constructor` | frontend/app/MultiStepForm/page.jsx:43-60 | The initial state: step 1, everything else empty, and the four contact fields blank. |
| `MultiStepForm.FormState.HandleSelect` | frontend/app/MultiStepForm/page.jsx:95-98 | Sets the BHK type and clears all selections to the empty map. Nothing else changes, and the state stays valid. |
| `MultiStepForm.FormState.ReceiveOptions` | frontend/app/MultiStepForm/page.jsx:68-93 | A non-empty fetched table becomes the offered options. A failed fetch or an empty object clears them. |
| `MultiStepForm.FormState.HandleOptionChange` | frontend/app/MultiStepForm/page.jsx:100-111 | The selections become `SelectOption` of the old ones. Nothing else changes. The state stays valid, so the selections stay well formed, which is the premise of `ToggleTwicePresent`. |
| `MultiStepForm.FormState.HandleInputChange` | frontend/app/MultiStepForm/page.jsx:113-125 | Stores the field's value. A non-empty error for that field is blanked; otherwise the errors stay as they were. |
| `MultiStepForm.FormState.HandleAddOption` | frontend/app/MultiStepForm/page.jsx:127-164 | A blank trimmed option or no current room replaces the error map with `{ addOption: "Please enter a valid option" }` and changes nothing else. On server failure the error map is replaced with `{ addOption: <message> }` and the options are unchanged. On success the trimmed option is appended to the current room only and the input is cleared. |
| `MultiStepForm.FormState.ValidateStep3` | frontend/app/MultiStepForm/page.jsx:166-188 | The errors become exactly the failing fields. The answer is true exactly when all four checks pass. |
| `MultiStepForm.FormState.IsStepComplete` | frontend/app/MultiStepForm/page.jsx:190-198 | Step 1 needs a chosen BHK type. Step 2 needs some non-empty room selection, or a carpet area with a non-white-space character. Any other step is complete. |
| `MultiStepForm.FormState.NextStep` | frontend/app/MultiStepForm/page.jsx:250-252 | Moves forward by exactly one below step 3 and stays at step 3. The step stays within 1..3. |
| `MultiStepForm.FormState.PrevStep` | frontend/app/MultiStepForm/page.jsx:254-256 | Moves back by exactly one above step 1 and stays at step 1. The step stays within 1..3. |
| `MultiStepForm.FormState.SubmitContact` | frontend/app/MultiStepForm/page.jsx:201-244 | The step-3 branch of the submit handler. Invalid contact data sets the field errors and changes nothing else. An accepted submission resets the form. A failed one records the reply's message, or `Form submission failed` when that is empty. |
| `MultiStepForm.FormState.Reset` | frontend/app/MultiStepForm/page.jsx:229-238 | Back to step 1 with no BHK type, no selections, no carpet area and blank contact data. |
| `MultiStepForm.FormState.HandleSubmit` | frontend/app/MultiStepForm/page.jsx:200-248 | Before step 3 it is `NextStep`. At step 3, invalid contact data stops it with the field errors set and `isSubmitting` untouched. An accepted submission resets the step, BHK type, selections, carpet area and contact data. A failed one records the reply's message, or a fixed message when that is empty. |

## Left out

- HTTP routing, status codes, `console` logging, and `/submit` with its MongoDB `Form.save()` call are framework and document-store plumbing. Handler outcomes are return values.
- `api/src/utils/googleSheetService.js` is not part of this model. It wraps the Google Sheets client.
- `decodeURIComponent` of the path parameter is not modelled. The BHK type is taken as already decoded, so the exception on a malformed escape is not modelled.
- Keys inherited from `Object.prototype` are not modelled. For example, `options["constructor"]` is truthy in JavaScript; the model's maps hold only their own keys.
- Request fields of a non-string JSON type (numbers, arrays) are not modelled. A field is absent (`None`) or a string.
- `JsStrings.Trim` and every length counts Unicode scalar values, not UTF-16 code units as JavaScript's `length` does. They differ outside the Basic Multilingual Plane. A JavaScript string can also hold unpaired surrogate code units, which a Dafny `char` cannot represent, so such strings are not modelled.
- Concurrency between requests that mutate the shared table is not modelled. Adds are sequential calls on one store.
- The JSON serialisation in `res.json` is not modelled, and neither is aliasing of the live list. Maps and sequences are values here.
- The order of object keys, which decides the order rooms are rendered in, is not modelled. Maps are unordered.
- The e-mail regular expression is not interpreted. It is the parameter `emailPattern`.
- JSX rendering, animation, the modal's `onOpen`/`onClose`, the `alert` shown after a successful submission, `toggleRoomExpansion` and `expandedRooms` are presentation only and are not modelled.
- The inline setters `setCarpetArea`, `setNewOption` and `setCurrentRoom` are not modelled as methods. Each is a plain field assignment.
- The `fetch` calls are not modelled. Their outcomes are the `data` and `reply` parameters.
- The `useEffect` that runs `fetchOptions` whenever `selectedBHK` changes to a non-empty value (for example from "1 BHK" to "2 BHK") is not modelled. `ReceiveOptions` models that fetch's outcome, and callers decide when it runs.
- The button guard `disabled={!isStepComplete() || isSubmitting}` is rendering and is not modelled. It is not part of `HandleSubmit`, which is faithful to the handler itself.
- The carpet area is kept as the raw string the user typed. It is never parsed as a number.
- Each handler's `await` is collapsed into one atomic call of the method. No other handler runs while a reply is pending, so the window in which `isSubmitting` is true is not observable in the model.
