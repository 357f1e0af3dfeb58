/**
 * The add/edit item form: its field state built from `initialData`, field
 * edits that clear the edited field's error, validation into an error map,
 * and the submit gate.
 */
module ItemForm {
  import opened Wrappers
  import JsString

  /**
   * The quantity input's value: empty, or the number typed (or given by
   * `initialData`).
   */
  datatype QuantityInput = Blank | Amount(value: real)

  /** The `formData` state. */
  datatype FormData = FormData(
    name: string,
    quantity: QuantityInput,
    unit: string,
    category: string,
    expiryDate: string)

  /** The `initialData` prop; `None` for a field it does not have (`{}` by default). */
  datatype InitialData = InitialData(
    name: Option<string>,
    quantity: Option<real>,
    unit: Option<string>,
    category: Option<string>,
    expiryDate: Option<string>)

  const NoInitialData := InitialData(None, None, None, None, None)

  /** An optional string field, or `fallback` when it is missing or empty. */
  function TextOr(s: Option<string>, fallback: string): string {
    if s.Some? && s.value != "" then s.value else fallback
  }

  /** The initial `formData`: each truthy field of `initialData`, else `''`, except that the unit falls back to `'pieces'`. */
  function InitialForm(d: InitialData): (f: FormData)
    ensures f.unit != ""
  {
    FormData(
      TextOr(d.name, ""),
      if d.quantity.Some? && d.quantity.value != 0.0 then Amount(d.quantity.value) else Blank,
      TextOr(d.unit, "pieces"),
      TextOr(d.category, ""),
      TextOr(d.expiryDate, ""))
  }

  /** The `initialData` an edit page passes for an item whose fields a form produced. */
  function AsInitialData(f: FormData): InitialData {
    InitialData(
      Some(f.name),
      if f.quantity.Amount? then Some(f.quantity.value) else None,
      Some(f.unit),
      Some(f.category),
      Some(f.expiryDate))
  }

  /**
   * Building a form from the data of a form gives that form back, as long
   * as its unit is set and its quantity is not 0 (a falsy quantity comes
   * back blank, and an empty unit comes back as 'pieces').
   */
  lemma InitialFormRoundTrip(f: FormData)
    requires f.unit != "" && (f.quantity.Amount? ==> f.quantity.value != 0.0)
    ensures InitialForm(AsInitialData(f)) == f
  {
  }

  /**
   * Building a form from the data of a built form changes nothing: the
   * defaults never produce a value that would be replaced a second time.
   */
  lemma InitialFormStable(d: InitialData)
    ensures InitialForm(AsInitialData(InitialForm(d))) == InitialForm(d)
  {
    InitialFormRoundTrip(InitialForm(d));
  }

  /** Without the two exceptions the round trip fails: an empty unit is replaced and a quantity of 0 is dropped. */
  lemma InitialFormDefaultsReplace(f: FormData)
    ensures f.unit == "" ==> InitialForm(AsInitialData(f)).unit == "pieces"
    ensures f.quantity == Amount(0.0) ==> InitialForm(AsInitialData(f)).quantity == Blank
  {
  }

  /** The inputs that hold text. */
  datatype TextField = NameField | UnitField | CategoryField | ExpiryDateField

  /** One change event: the input's `name` and its new `value`. */
  datatype Change = TextChange(field: TextField, text: string) | QuantityChange(quantity: QuantityInput)

  /** The input's `name` attribute, which is also its key in `formData` and in `errors`. */
  function Key(c: Change): string {
    match c
    case QuantityChange(_) => "quantity"
    case TextChange(field, _) =>
      match field
      case NameField => "name"
      case UnitField => "unit"
      case CategoryField => "category"
      case ExpiryDateField => "expiryDate"
  }

  function TextOf(f: FormData, field: TextField): string {
    match field
    case NameField => f.name
    case UnitField => f.unit
    case CategoryField => f.category
    case ExpiryDateField => f.expiryDate
  }

  /** A field edit: the named field takes the new value and no other field changes. */
  function ApplyChange(f: FormData, c: Change): (r: FormData)
    ensures c.TextChange? ==> TextOf(r, c.field) == c.text && r.quantity == f.quantity
    ensures c.TextChange? ==> forall g :: g != c.field ==> TextOf(r, g) == TextOf(f, g)
    ensures c.QuantityChange? ==> r.quantity == c.quantity && forall g :: TextOf(r, g) == TextOf(f, g)
  {
    match c
    case QuantityChange(q) => f.(quantity := q)
    case TextChange(field, text) =>
      match field
      case NameField => f.(name := text)
      case UnitField => f.(unit := text)
      case CategoryField => f.(category := text)
      case ExpiryDateField => f.(expiryDate := text)
  }

  /** The error map after an edit of `key`: a set message for that key is blanked, every other entry kept. */
  function ClearError(errors: map<string, string>, key: string): (r: map<string, string>)
    ensures r.Keys == errors.Keys
    ensures key in errors ==> r[key] == ""
    ensures forall k :: k in errors && k != key ==> r[k] == errors[k]
  {
    if key in errors && errors[key] != "" then errors[key := ""] else errors
  }

  const NameError := "Item name is required"
  const QuantityError := "Valid quantity is required"
  const CategoryError := "Category is required"

  /** The three checks of `validateForm`. */
  predicate NameMissing(f: FormData) { JsString.AllSpace(f.name) }
  predicate QuantityInvalid(f: FormData) { f.quantity.Blank? || f.quantity.value <= 0.0 }
  predicate CategoryMissing(f: FormData) { f.category == "" }

  /**
   * The `newErrors` that `validateForm` builds: exactly the keys of the
   * failing checks, each with its fixed message.
   */
  function ValidationErrors(f: FormData): (errors: map<string, string>)
    ensures "name" in errors <==> NameMissing(f)
    ensures "quantity" in errors <==> QuantityInvalid(f)
    ensures "category" in errors <==> CategoryMissing(f)
    ensures errors.Keys <= {"name", "quantity", "category"}
    ensures "name" in errors ==> errors["name"] == NameError
    ensures "quantity" in errors ==> errors["quantity"] == QuantityError
    ensures "category" in errors ==> errors["category"] == CategoryError
  {
    JsString.TrimEmptyIff(f.name);
    var e1 := if JsString.Trim(f.name) == "" then map["name" := NameError] else map[];
    var e2 := if f.quantity.Blank? || f.quantity.value <= 0.0 then e1["quantity" := QuantityError] else e1;
    if f.category == "" then e2["category" := CategoryError] else e2
  }

  /** Validation passes exactly when the name is not all white space, the quantity is above 0 and a category is chosen. */
  lemma ValidIff(f: FormData)
    ensures ValidationErrors(f) == map[] <==>
      !JsString.AllSpace(f.name) && f.quantity.Amount? && f.quantity.value > 0.0 && f.category != ""
  {
    var e := ValidationErrors(f);
    if !NameMissing(f) && !QuantityInvalid(f) && !CategoryMissing(f) {
      assert e.Keys == {};
    } else if NameMissing(f) {
      assert "name" in e;
    } else if QuantityInvalid(f) {
      assert "quantity" in e;
    } else {
      assert "category" in e;
    }
  }

  /** What `onSubmit` receives: the form data with the quantity as a number. */
  datatype ItemPayload = ItemPayload(name: string, quantity: real, unit: string, category: string, expiryDate: string)

  /** The form's state. */
  class ItemFormState {
    var formData: FormData
    var errors: map<string, string>

    constructor (initialData: InitialData)
      ensures formData == InitialForm(initialData) && errors == map[]
    {
      formData := InitialForm(initialData);
      errors := map[];
    }

    /** `handleChange`. */
    method HandleChange(c: Change)
      modifies this
      ensures formData == ApplyChange(old(formData), c)
      ensures errors == ClearError(old(errors), Key(c))
    {
      formData := ApplyChange(formData, c);
      var name := Key(c);
      if name in errors && errors[name] != "" {
        errors := errors[name := ""];
      }
    }

    /** `validateForm`: builds `newErrors` one check at a time, stores it, and reports whether it is empty. */
    method ValidateForm() returns (valid: bool)
      modifies this`errors
      ensures errors == ValidationErrors(formData)
      ensures valid <==> errors == map[]
    {
      var newErrors: map<string, string> := map[];
      var nameBlank := JsString.Trim(formData.name) == "";
      if nameBlank {
        newErrors := newErrors["name" := NameError];
      }
      ghost var e1 := newErrors;
      if formData.quantity.Blank? || formData.quantity.value <= 0.0 {
        newErrors := newErrors["quantity" := QuantityError];
      }
      ghost var e2 := newErrors;
      if formData.category == "" {
        newErrors := newErrors["category" := CategoryError];
      }
      assert newErrors == (if formData.category == "" then e2["category" := CategoryError] else e2);
      assert e1 == (if JsString.Trim(formData.name) == "" then map["name" := NameError] else map[]);
      errors := newErrors;
      valid := |newErrors| == 0;
      if newErrors != map[] {
        var k :| k in newErrors;
        assert k in newErrors.Keys;
      }
    }

    /** `handleSubmit`: `onSubmit` is called, with the parsed quantity, only when validation passes. */
    method HandleSubmit() returns (submitted: Option<ItemPayload>)
      modifies this`errors
      ensures errors == ValidationErrors(formData)
      ensures submitted.Some? <==> ValidationErrors(formData) == map[]
      ensures submitted.Some? ==>
        submitted.value == ItemPayload(formData.name, formData.quantity.value, formData.unit, formData.category, formData.expiryDate)
    {
      var valid := ValidateForm();
      if valid {
        ValidIff(formData);
        submitted := Some(ItemPayload(formData.name, formData.quantity.value, formData.unit, formData.category, formData.expiryDate));
      } else {
        submitted := None;
      }
    }
  }
}
