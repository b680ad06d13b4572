/** The annual income tax of one employee: a flat 5% of the annual income
    left after the deductible and the tax-free allowance, rounded to a whole
    currency unit. */
module TaxFunction {
  import opened JavaInt

  const TAX_RATE: Int32 := 5
  const MAX_CHILDREN: Int32 := 3
  /** Base tax-free allowance (the source's name for it). */
  const MAX_TAX_DEDUCTIBLE: Int32 := 54000000
  const MARRIED_DEDUCTIBLE: Int32 := 4500000
  const CHILD_DEDUCTIBLE: Int32 := 1500000
  const DEFAULT_TAX: Int32 := 0
  /** Largest number of months worked that is accepted. */
  const MONTHS_PER_YEAR: Int32 := 12

  /** `Math.min(numberOfChildren, MAX_CHILDREN)`. */
  function ClampChildren(numberOfChildren: Int32): (c: Int32)
    ensures c <= numberOfChildren && c <= MAX_CHILDREN
    ensures c == numberOfChildren || c == MAX_CHILDREN
  {
    if numberOfChildren < MAX_CHILDREN then numberOfChildren else MAX_CHILDREN
  }

  /** The tax-free allowance: the base, the married supplement, and a
      supplement per child for at most three children (a non-positive count
      adds nothing). */
  function TaxFreeIncome(isMarried: bool, numberOfChildren: Int32): (r: int)
    ensures MAX_TAX_DEDUCTIBLE <= r
    ensures r <= MAX_TAX_DEDUCTIBLE + MARRIED_DEDUCTIBLE + MAX_CHILDREN * CHILD_DEDUCTIBLE
    ensures var married := if isMarried then MARRIED_DEDUCTIBLE else 0;
      && (numberOfChildren <= 0 ==> r == MAX_TAX_DEDUCTIBLE + married)
      && (0 <= numberOfChildren <= MAX_CHILDREN ==>
            r == MAX_TAX_DEDUCTIBLE + married + numberOfChildren * CHILD_DEDUCTIBLE)
      && (MAX_CHILDREN <= numberOfChildren ==>
            r == MAX_TAX_DEDUCTIBLE + married + MAX_CHILDREN * CHILD_DEDUCTIBLE)
  {
    var children := ClampChildren(numberOfChildren);
    MAX_TAX_DEDUCTIBLE
      + (if isMarried then MARRIED_DEDUCTIBLE else 0)
      + (if children > 0 then children * CHILD_DEDUCTIBLE else 0)
  }

  /** Taxable income in exact arithmetic: annual income, less the deductible,
      less the tax-free allowance (which lies between the base and the base
      plus every supplement). */
  function AnnualTaxable(monthlySalary: Int32, otherMonthlyIncome: Int32, numberOfMonthWorking: Int32,
                         deductible: Int32, isMarried: bool, numberOfChildren: Int32): (t: int)
    ensures var net := (monthlySalary + otherMonthlyIncome) * numberOfMonthWorking - deductible;
      net - (MAX_TAX_DEDUCTIBLE + MARRIED_DEDUCTIBLE + MAX_CHILDREN * CHILD_DEDUCTIBLE) <= t
      && t <= net - MAX_TAX_DEDUCTIBLE
  {
    (monthlySalary + otherMonthlyIncome) * numberOfMonthWorking - deductible
      - TaxFreeIncome(isMarried, numberOfChildren)
  }

  /** TAX_RATE percent of `taxableIncome`, rounded half up to a whole unit. */
  function RoundedTax(taxableIncome: int): (r: int)
    requires taxableIncome >= 0
    ensures 100 * r - 50 <= TAX_RATE * taxableIncome < 100 * r + 50
    ensures 0 <= r <= taxableIncome
  {
    (TAX_RATE * taxableIncome + 50) / 100
  }

  /** The tax owed on a taxable income: nothing when it is negative. */
  function TaxOn(taxableIncome: int): (r: int)
    ensures 0 <= r
    ensures taxableIncome >= 0 ==> r <= taxableIncome
  {
    if taxableIncome < 0 then DEFAULT_TAX else RoundedTax(taxableIncome)
  }

  /** The intended tax: exact arithmetic, no 32-bit wrap-around. */
  function TaxSpec(monthlySalary: Int32, otherMonthlyIncome: Int32, numberOfMonthWorking: Int32,
                   deductible: Int32, isMarried: bool, numberOfChildren: Int32): (r: int)
    ensures r >= 0
  {
    if numberOfMonthWorking > MONTHS_PER_YEAR then DEFAULT_TAX
    else TaxOn(AnnualTaxable(monthlySalary, otherMonthlyIncome, numberOfMonthWorking,
                             deductible, isMarried, numberOfChildren))
  }

  /** The tax as the 32-bit code computes it: taxable income wraps modulo 2^32. */
  function Int32Tax(monthlySalary: Int32, otherMonthlyIncome: Int32, numberOfMonthWorking: Int32,
                    deductible: Int32, isMarried: bool, numberOfChildren: Int32): (r: Int32)
    ensures r >= 0
  {
    if numberOfMonthWorking > MONTHS_PER_YEAR then DEFAULT_TAX
    else TaxOn(Wrap(AnnualTaxable(monthlySalary, otherMonthlyIncome, numberOfMonthWorking,
                                  deductible, isMarried, numberOfChildren)))
  }

  /** `calculateTax`, step by step, with every `int` operation wrapping as
      in Java. The diagnostic printed for more than twelve months is not
      modelled; only the returned value is. */
  method CalculateTax(monthlySalary: Int32, otherMonthlyIncome: Int32, numberOfMonthWorking: Int32,
                      deductible: Int32, isMarried: bool, numberOfChildren: Int32)
    returns (tax: Int32)
    ensures tax == Int32Tax(monthlySalary, otherMonthlyIncome, numberOfMonthWorking,
                            deductible, isMarried, numberOfChildren)
    ensures InInt32(AnnualTaxable(monthlySalary, otherMonthlyIncome, numberOfMonthWorking,
                                  deductible, isMarried, numberOfChildren))
            ==> tax == TaxSpec(monthlySalary, otherMonthlyIncome, numberOfMonthWorking,
                               deductible, isMarried, numberOfChildren)
  {
    if numberOfMonthWorking > MONTHS_PER_YEAR {
      return DEFAULT_TAX;
    }

    var children := ClampChildren(numberOfChildren);

    var taxFreeIncome := MAX_TAX_DEDUCTIBLE;

    if isMarried {
      taxFreeIncome := Add(taxFreeIncome, MARRIED_DEDUCTIBLE);
    }

    if children > 0 {
      taxFreeIncome := Add(taxFreeIncome, Mul(children, CHILD_DEDUCTIBLE));
    }
    assert taxFreeIncome == TaxFreeIncome(isMarried, numberOfChildren);

    var income := Add(monthlySalary, otherMonthlyIncome);
    var annualIncome := Mul(income, numberOfMonthWorking);
    var afterDeductible := Sub(annualIncome, deductible);
    var taxableIncome := Sub(afterDeductible, taxFreeIncome);
    ghost var exact := AnnualTaxable(monthlySalary, otherMonthlyIncome, numberOfMonthWorking,
                                     deductible, isMarried, numberOfChildren);
    WrapStepwise(monthlySalary, otherMonthlyIncome, numberOfMonthWorking, deductible, taxFreeIncome);
    assert taxableIncome == Wrap(exact);

    if taxableIncome < 0 {
      return DEFAULT_TAX;
    }

    tax := RoundedTax(taxableIncome);
  }
}
