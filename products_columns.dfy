/** The columns of the catalogue table: the description line under the name, the billing badge, and
    the detail column, which shows the billing interval of a recurring product, the deposit of a
    one-time product, or a dash. */
module ProductsColumns {
  import opened Wrappers
  import PA = ProductActions

  const DASH := "—"
  const RECURRENT := "Récurrent"
  const SINGLE := "Unique"

  /** `Product`: a catalogue row as the page hands it over, the price and deposit as decimal text. */
  datatype ProductRow = ProductRow(
    id: string,
    name: string,
    description: Option<string>,
    price: string,
    billingType: string,
    recurringInterval: Option<string>,
    depositEnabled: bool,
    depositType: Option<string>,
    depositValue: Option<string>,
    createdAt: string)

  predicate Truthy(s: Option<string>) {
    s.Some? && s.value != ""
  }

  /** `INTERVAL_LABELS` */
  const INTERVAL_LABELS: map<string, string> :=
    map["MONTHLY" := "Mensuel", "QUARTERLY" := "Trimestriel", "SEMIANNUAL" := "Semestriel", "ANNUAL" := "Annuel"]

  /** `INTERVAL_LABELS[interval] ?? interval`: the French label, or the interval code itself. */
  function IntervalLabel(interval: string): (r: string)
    ensures interval in INTERVAL_LABELS ==> r == INTERVAL_LABELS[interval]
    ensures interval !in INTERVAL_LABELS ==> r == interval
  {
    if interval in INTERVAL_LABELS then INTERVAL_LABELS[interval] else interval
  }

  /** The four known intervals are labelled apart, so the label tells which interval was chosen. */
  lemma IntervalLabelsApart(a: string, b: string)
    requires a in INTERVAL_LABELS && b in INTERVAL_LABELS
    requires IntervalLabel(a) == IntervalLabel(b)
    ensures a == b
  {
  }

  /** What `DetailCell` shows. A deposit carries its decimal text; the French number and currency
      formatting around it is not modelled. */
  datatype Detail = Interval(name: string) | PercentDeposit(value: string) | FixedDeposit(value: string) | Dash

  /** `DetailCell`: the interval of a recurring product that has one; else the deposit of a one-time
      product with the deposit enabled and a value, as a percentage for PERCENTAGE and as an amount
      for any other type; else a dash. */
  function DetailCell(p: ProductRow): (r: Detail)
    ensures r.Interval? <==> p.billingType == PA.RECURRING && Truthy(p.recurringInterval)
    ensures r.Interval? ==> r.name == IntervalLabel(p.recurringInterval.value)
    ensures (r.PercentDeposit? || r.FixedDeposit?) <==>
              p.billingType == PA.ONE_TIME && p.depositEnabled && Truthy(p.depositValue)
    ensures r.PercentDeposit? <==> p.billingType == PA.ONE_TIME && p.depositEnabled && Truthy(p.depositValue)
                                   && p.depositType == Some(PA.PERCENTAGE)
    ensures (r.PercentDeposit? || r.FixedDeposit?) ==> r.value == p.depositValue.value
  {
    if p.billingType == PA.RECURRING && Truthy(p.recurringInterval) then
      Interval(IntervalLabel(p.recurringInterval.value))
    else if p.billingType == PA.ONE_TIME && p.depositEnabled && Truthy(p.depositValue) then
      if p.depositType == Some(PA.PERCENTAGE) then PercentDeposit(p.depositValue.value)
      else FixedDeposit(p.depositValue.value)
    else Dash
  }

  /** The billing column's badge. */
  function BillingBadge(billingType: string): (r: string)
    ensures r == RECURRENT <==> billingType == PA.RECURRING
    ensures r == SINGLE <==> billingType != PA.RECURRING
  {
    if billingType == PA.RECURRING then RECURRENT else SINGLE
  }

  /** The description line is shown under the name exactly when there is a non-empty description. */
  function ShowsDescription(p: ProductRow): (r: bool)
    ensures r <==> p.description.Some? && p.description.value != ""
  {
    Truthy(p.description)
  }

  /** The row the catalogue page makes of a stored product: the decimals written out by `show`, the
      creation time by `toIso`. */
  function ToRow(p: PA.Product, show: real -> string, toIso: int -> string): (r: ProductRow)
    ensures r.id == p.id && r.name == p.fields.name && r.description == p.fields.description
    ensures r.price == show(p.fields.price) && r.billingType == p.fields.billingType
    ensures r.recurringInterval == p.fields.recurringInterval && r.depositEnabled == p.fields.depositEnabled
    ensures r.depositType == p.fields.depositType
    ensures r.depositValue.Some? <==> p.fields.depositValue.Some?
    ensures r.depositValue.Some? ==> r.depositValue.value == show(p.fields.depositValue.value)
    ensures r.createdAt == toIso(p.createdAt)
  {
    var f := p.fields;
    ProductRow(p.id, f.name, f.description, show(f.price), f.billingType, f.recurringInterval, f.depositEnabled,
               f.depositType, if f.depositValue.Some? then Some(show(f.depositValue.value)) else None,
               toIso(p.createdAt))
  }

  /** For a product the actions stored, the detail column agrees with what was saved: a recurring
      product always shows its interval, a one-time product with a deposit value shows that deposit
      (as a percentage exactly when its type is PERCENTAGE), every other product a dash; and a stored
      description is always shown. */
  lemma {:induction false} StoredProductDetail(p: PA.Product, show: real -> string, toIso: int -> string)
    requires PA.WellFormed(p.fields)
    requires forall x: real :: show(x) != ""
    ensures var r := ToRow(p, show, toIso); var f := p.fields;
            && (DetailCell(r).Interval? <==> f.billingType == PA.RECURRING)
            && (DetailCell(r).PercentDeposit? <==> f.billingType == PA.ONE_TIME && f.depositValue.Some?
                                                   && f.depositType == Some(PA.PERCENTAGE))
            && (DetailCell(r).FixedDeposit? <==> f.billingType == PA.ONE_TIME && f.depositValue.Some?
                                                 && f.depositType != Some(PA.PERCENTAGE))
            && (ShowsDescription(r) <==> f.description.Some?)
  {
    var r := ToRow(p, show, toIso);
    if p.fields.depositValue.Some? {
      var v: real := p.fields.depositValue.value;
      assert show(v) != "";
    }
  }
}
