/** The product sheet: the create or edit form of a product. Its state decides which fields the
    browser submits: the billing type always, the interval only for recurring billing, the deposit
    value and type only for an enabled deposit on one-time billing, and the deposit flag whenever it
    is on. The lemma at the end follows the submitted form through `parseProductFields`. */
module ProductSheet {
  import opened Wrappers
  import opened Text
  import PA = ProductActions

  type Form = PA.Form

  /** The product being edited, as far as the sheet's state depends on it. */
  datatype SheetProduct = SheetProduct(id: string, billingType: string, depositEnabled: bool, depositType: Option<string>)

  /** What the user typed into the visible inputs (the select's value for the interval). */
  datatype Inputs = Inputs(name: string, description: string, price: string, recurringInterval: string, depositValue: string)

  /** The server action the submit calls. */
  datatype Call = Create | Update(id: string)

  /** `(product?.billingType as BillingType) ?? "ONE_TIME"`: the edited product's billing type; a
      new product starts as one-time. */
  function InitialBilling(product: Option<SheetProduct>): (r: string)
    ensures product.None? ==> r == PA.ONE_TIME
    ensures product.Some? ==> r == product.value.billingType
  {
    if product.Some? then product.value.billingType else PA.ONE_TIME
  }

  /** `product?.depositEnabled ?? false`: the edited product's deposit flag; a new product starts
      without a deposit. */
  function InitialDeposit(product: Option<SheetProduct>): (r: bool)
    ensures product.None? ==> !r
    ensures product.Some? ==> r == product.value.depositEnabled
  {
    product.Some? && product.value.depositEnabled
  }

  /** `(product?.depositType as DepositType) ?? "FIXED"` */
  function InitialDepositType(product: Option<SheetProduct>): string {
    if product.Some? && product.value.depositType.Some? then product.value.depositType.value else PA.FIXED
  }

  /** The form the browser builds on submit, after `formData.set("depositEnabled", "on")`. The
      checkbox has no name, so only that call puts the deposit flag in the form. */
  function Submission(billingType: string, depositEnabled: bool, depositType: string, inputs: Inputs): Form {
    var m0 := map["billingType" := billingType, "name" := inputs.name,
                  "description" := inputs.description, "price" := inputs.price];
    var oneTimeDeposit := depositEnabled && billingType == PA.ONE_TIME;
    var m1 := if oneTimeDeposit then m0["depositType" := depositType] else m0;
    var m2 := if billingType == PA.RECURRING then m1["recurringInterval" := inputs.recurringInterval] else m1;
    var m3 := if oneTimeDeposit then m2["depositValue" := inputs.depositValue] else m2;
    if depositEnabled then m3["depositEnabled" := "on"] else m3
  }

  /** What each field of the submission reads back as. */
  lemma SubmissionGet(billingType: string, depositEnabled: bool, depositType: string, inputs: Inputs)
    ensures var form := Submission(billingType, depositEnabled, depositType, inputs);
            var oneTimeDeposit := depositEnabled && billingType == PA.ONE_TIME;
            && PA.Get(form, "billingType") == Some(billingType)
            && PA.Get(form, "name") == Some(inputs.name)
            && PA.Get(form, "description") == Some(inputs.description)
            && PA.Get(form, "price") == Some(inputs.price)
            && PA.Get(form, "depositType") == (if oneTimeDeposit then Some(depositType) else None)
            && PA.Get(form, "recurringInterval") == (if billingType == PA.RECURRING then Some(inputs.recurringInterval) else None)
            && PA.Get(form, "depositValue") == (if oneTimeDeposit then Some(inputs.depositValue) else None)
            && PA.Get(form, "depositEnabled") == (if depositEnabled then Some("on") else None)
  {
  }

  /** The state of `ProductSheet`: one field per `useState` variable. */
  class ProductSheet {
    var open: bool
    var loading: bool
    var error: string
    var billingType: string
    var depositEnabled: bool
    var depositType: string

    /** The first render, for `product` or for a new product. */
    constructor(product: Option<SheetProduct>)
      ensures !open && !loading && error == ""
      ensures billingType == InitialBilling(product) && depositEnabled == InitialDeposit(product)
      ensures depositType == InitialDepositType(product)
    {
      open, loading, error := false, false, "";
      billingType, depositEnabled, depositType :=
        InitialBilling(product), InitialDeposit(product), InitialDepositType(product);
    }

    /** `resetState()`: the billing and deposit choices go back to the product's (or the defaults),
        and the error is cleared. */
    method ResetState(product: Option<SheetProduct>)
      modifies this
      ensures billingType == InitialBilling(product) && depositEnabled == InitialDeposit(product)
      ensures depositType == InitialDepositType(product) && error == ""
      ensures open == old(open) && loading == old(loading)
    {
      billingType := InitialBilling(product);
      depositEnabled := InitialDeposit(product);
      depositType := InitialDepositType(product);
      error := "";
    }

    /** `onOpenChange`: the sheet follows `value`, and is reset only when it opens. */
    method OnOpenChange(value: bool, product: Option<SheetProduct>)
      modifies this
      ensures open == value && loading == old(loading)
      ensures value ==> billingType == InitialBilling(product) && depositEnabled == InitialDeposit(product)
                        && depositType == InitialDepositType(product) && error == ""
      ensures !value ==> billingType == old(billingType) && depositEnabled == old(depositEnabled)
                         && depositType == old(depositType) && error == old(error)
    {
      open := value;
      if value {
        ResetState(product);
      }
    }

    /** The billing buttons, the deposit checkbox and the deposit type buttons. */
    method SetBillingType(recurring: bool)
      modifies this
      ensures billingType == if recurring then PA.RECURRING else PA.ONE_TIME
      ensures open == old(open) && loading == old(loading) && error == old(error)
      ensures depositEnabled == old(depositEnabled) && depositType == old(depositType)
    {
      billingType := if recurring then PA.RECURRING else PA.ONE_TIME;
    }

    method SetDepositEnabled(checked: bool)
      modifies this
      ensures depositEnabled == checked
      ensures open == old(open) && loading == old(loading) && error == old(error)
      ensures billingType == old(billingType) && depositType == old(depositType)
    {
      depositEnabled := checked;
    }

    method SetDepositType(percentage: bool)
      modifies this
      ensures depositType == if percentage then PA.PERCENTAGE else PA.FIXED
      ensures open == old(open) && loading == old(loading) && error == old(error)
      ensures billingType == old(billingType) && depositEnabled == old(depositEnabled)
    {
      depositType := if percentage then PA.PERCENTAGE else PA.FIXED;
    }

    /** `handleSubmit(e)`: submits the form the state calls for, to `updateProduct(product.id)` when
        a product is being edited and to `createProduct` otherwise; the sheet closes only when the
        call resolves, a rejection's message is shown, and loading ends either way. */
    method HandleSubmit(product: Option<SheetProduct>, inputs: Inputs, outcome: Outcome)
      returns (call: Call, submitted: Form)
      modifies this
      ensures submitted == Submission(old(billingType), old(depositEnabled), old(depositType), inputs)
      ensures call == if product.Some? then Update(product.value.id) else Create
      ensures open == (old(open) && outcome.Fail?)
      ensures error == if outcome.Fail? then outcome.message else ""
      ensures !loading
      ensures billingType == old(billingType) && depositEnabled == old(depositEnabled) && depositType == old(depositType)
    {
      error := "";
      loading := true;
      submitted := Submission(billingType, depositEnabled, depositType, inputs);
      call := if product.Some? then Update(product.value.id) else Create;
      if outcome.Pass? {
        open := false;
      } else {
        error := outcome.message;
      }
      loading := false;
    }
  }

  /** What the server stores from the sheet's submission: the billing type and the deposit flag as
      the sheet shows them; an interval (the chosen one, "MONTHLY" when none is) only for recurring
      billing; a deposit type and value only for an enabled deposit on one-time billing. A deposit
      left on after switching to recurring billing reaches the server as enabled, without type or
      value. The submission is refused exactly when the name is blank or the price does not parse. */
  lemma {:induction false} ServerReadsSheetState(billingType: string, depositEnabled: bool, depositType: string,
                                                 inputs: Inputs, parseFloat: PA.ParseFloat)
    requires billingType != ""
    ensures var r := PA.ParseProductFields(Submission(billingType, depositEnabled, depositType, inputs), parseFloat);
            var oneTimeDeposit := depositEnabled && billingType == PA.ONE_TIME;
            && (r.Ok? <==> Trim(inputs.name) != "" && parseFloat(inputs.price).Some?)
            && (r.Ok? ==>
                  && r.value.billingType == billingType
                  && r.value.depositEnabled == depositEnabled
                  && r.value.recurringInterval ==
                       (if billingType == PA.RECURRING
                        then Some(if inputs.recurringInterval == "" then PA.MONTHLY else inputs.recurringInterval)
                        else None)
                  && r.value.depositType ==
                       (if oneTimeDeposit then Some(if depositType == "" then PA.FIXED else depositType) else None)
                  && r.value.depositValue == (if oneTimeDeposit then parseFloat(inputs.depositValue) else None))
  {
    var form := Submission(billingType, depositEnabled, depositType, inputs);
    SubmissionGet(billingType, depositEnabled, depositType, inputs);
    assert form["name"] == inputs.name;
    assert PA.Number(form, "price", parseFloat) == parseFloat(inputs.price);
    assert PA.TextOr(form, "billingType", PA.ONE_TIME) == billingType;
    assert PA.TextOr(form, "recurringInterval", PA.MONTHLY) ==
             if billingType == PA.RECURRING && inputs.recurringInterval != "" then inputs.recurringInterval else PA.MONTHLY;
    assert PA.TextOr(form, "depositType", PA.FIXED) ==
             if depositEnabled && billingType == PA.ONE_TIME && depositType != "" then depositType else PA.FIXED;
    assert PA.Number(form, "depositValue", parseFloat) ==
             if depositEnabled && billingType == PA.ONE_TIME then parseFloat(inputs.depositValue) else None;
  }
}
