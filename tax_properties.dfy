/** What `calculateTax` promises: validation of the months worked, clamping
    of the children count, the allowance, the rounding rule, bounds and
    monotonicity, and where the 32-bit computation departs from them. */
module TaxProperties {
  import opened JavaInt
  import opened TaxFunction

  /** More than twelve months is rejected with the default tax, whatever the
      other inputs; twelve or fewer goes on to the computation. */
  lemma MonthsWorkedValidation(monthlySalary: Int32, otherMonthlyIncome: Int32, numberOfMonthWorking: Int32,
                               deductible: Int32, isMarried: bool, numberOfChildren: Int32)
    ensures var t := AnnualTaxable(monthlySalary, otherMonthlyIncome, numberOfMonthWorking,
                                   deductible, isMarried, numberOfChildren);
      && (numberOfMonthWorking > MONTHS_PER_YEAR ==>
            TaxSpec(monthlySalary, otherMonthlyIncome, numberOfMonthWorking,
                    deductible, isMarried, numberOfChildren) == DEFAULT_TAX
            && Int32Tax(monthlySalary, otherMonthlyIncome, numberOfMonthWorking,
                        deductible, isMarried, numberOfChildren) == DEFAULT_TAX)
      && (numberOfMonthWorking <= MONTHS_PER_YEAR ==>
            TaxSpec(monthlySalary, otherMonthlyIncome, numberOfMonthWorking,
                    deductible, isMarried, numberOfChildren) == TaxOn(t)
            && Int32Tax(monthlySalary, otherMonthlyIncome, numberOfMonthWorking,
                        deductible, isMarried, numberOfChildren) == TaxOn(Wrap(t)))
  {
  }

  /** Any count of three or more children is taxed as exactly three. */
  lemma ChildrenClamped(monthlySalary: Int32, otherMonthlyIncome: Int32, numberOfMonthWorking: Int32,
                        deductible: Int32, isMarried: bool, numberOfChildren: Int32)
    requires numberOfChildren >= MAX_CHILDREN
    ensures TaxSpec(monthlySalary, otherMonthlyIncome, numberOfMonthWorking, deductible, isMarried, numberOfChildren)
         == TaxSpec(monthlySalary, otherMonthlyIncome, numberOfMonthWorking, deductible, isMarried, MAX_CHILDREN)
    ensures Int32Tax(monthlySalary, otherMonthlyIncome, numberOfMonthWorking, deductible, isMarried, numberOfChildren)
         == Int32Tax(monthlySalary, otherMonthlyIncome, numberOfMonthWorking, deductible, isMarried, MAX_CHILDREN)
  {
  }

  /** A zero or negative children count adds nothing to the allowance, so it
      is taxed as no children at all. */
  lemma NonPositiveChildrenAddNothing(monthlySalary: Int32, otherMonthlyIncome: Int32, numberOfMonthWorking: Int32,
                                      deductible: Int32, isMarried: bool, numberOfChildren: Int32)
    requires numberOfChildren <= 0
    ensures TaxFreeIncome(isMarried, numberOfChildren) == TaxFreeIncome(isMarried, 0)
    ensures TaxSpec(monthlySalary, otherMonthlyIncome, numberOfMonthWorking, deductible, isMarried, numberOfChildren)
         == TaxSpec(monthlySalary, otherMonthlyIncome, numberOfMonthWorking, deductible, isMarried, 0)
    ensures Int32Tax(monthlySalary, otherMonthlyIncome, numberOfMonthWorking, deductible, isMarried, numberOfChildren)
         == Int32Tax(monthlySalary, otherMonthlyIncome, numberOfMonthWorking, deductible, isMarried, 0)
  {
  }

  /** A negative taxable income owes the default tax. */
  lemma NegativeTaxableOwesNothing(monthlySalary: Int32, otherMonthlyIncome: Int32, numberOfMonthWorking: Int32,
                                   deductible: Int32, isMarried: bool, numberOfChildren: Int32)
    ensures var t := AnnualTaxable(monthlySalary, otherMonthlyIncome, numberOfMonthWorking,
                                   deductible, isMarried, numberOfChildren);
      && (t < 0 ==> TaxSpec(monthlySalary, otherMonthlyIncome, numberOfMonthWorking,
                            deductible, isMarried, numberOfChildren) == DEFAULT_TAX)
      && (Wrap(t) < 0 ==> Int32Tax(monthlySalary, otherMonthlyIncome, numberOfMonthWorking,
                                   deductible, isMarried, numberOfChildren) == DEFAULT_TAX)
  {
  }

  /** Five percent rounded half up is `(t + 10) / 20`; a tie (`t % 20 == 10`)
      rounds up, and the tax never exceeds the taxable income. */
  lemma RoundingRule(taxableIncome: int)
    requires taxableIncome >= 0
    ensures TaxOn(taxableIncome) == (taxableIncome + 10) / 20
    ensures 0 <= TaxOn(taxableIncome) <= taxableIncome
    ensures taxableIncome % 20 == 10 ==> 20 * TaxOn(taxableIncome) == taxableIncome + 10
    ensures taxableIncome % 20 != 10 ==> -10 < taxableIncome - 20 * TaxOn(taxableIncome) < 10
  {
  }

  /** For an accepted year and a non-negative taxable income t the tax is
      `(t + 10) / 20`, between 0 and t. */
  lemma TaxIsFivePercentOfTaxable(monthlySalary: Int32, otherMonthlyIncome: Int32, numberOfMonthWorking: Int32,
                                  deductible: Int32, isMarried: bool, numberOfChildren: Int32)
    requires numberOfMonthWorking <= MONTHS_PER_YEAR
    requires AnnualTaxable(monthlySalary, otherMonthlyIncome, numberOfMonthWorking,
                           deductible, isMarried, numberOfChildren) >= 0
    ensures var t := AnnualTaxable(monthlySalary, otherMonthlyIncome, numberOfMonthWorking,
                                   deductible, isMarried, numberOfChildren);
      var r := TaxSpec(monthlySalary, otherMonthlyIncome, numberOfMonthWorking,
                       deductible, isMarried, numberOfChildren);
      r == (t + 10) / 20 && 0 <= r <= t
  {
    RoundingRule(AnnualTaxable(monthlySalary, otherMonthlyIncome, numberOfMonthWorking,
                               deductible, isMarried, numberOfChildren));
  }

  /** A larger taxable income never owes less. */
  lemma TaxOnMonotone(a: int, b: int)
    requires a <= b
    ensures TaxOn(a) <= TaxOn(b)
  {
  }

  /** The allowance grows with marriage and with the children count. */
  lemma TaxFreeIncomeMonotone(numberOfChildren: Int32, moreChildren: Int32)
    requires numberOfChildren <= moreChildren
    ensures TaxFreeIncome(false, numberOfChildren) <= TaxFreeIncome(true, numberOfChildren)
    ensures forall isMarried :: TaxFreeIncome(isMarried, numberOfChildren) <= TaxFreeIncome(isMarried, moreChildren)
  {
  }

  /** Being married never yields more tax than being unmarried. */
  lemma MarriedNeverPaysMore(monthlySalary: Int32, otherMonthlyIncome: Int32, numberOfMonthWorking: Int32,
                             deductible: Int32, numberOfChildren: Int32)
    ensures TaxSpec(monthlySalary, otherMonthlyIncome, numberOfMonthWorking, deductible, true, numberOfChildren)
         <= TaxSpec(monthlySalary, otherMonthlyIncome, numberOfMonthWorking, deductible, false, numberOfChildren)
    ensures InInt32(AnnualTaxable(monthlySalary, otherMonthlyIncome, numberOfMonthWorking, deductible, true, numberOfChildren))
         && InInt32(AnnualTaxable(monthlySalary, otherMonthlyIncome, numberOfMonthWorking, deductible, false, numberOfChildren))
         ==> (Int32Tax(monthlySalary, otherMonthlyIncome, numberOfMonthWorking, deductible, true, numberOfChildren)
           <= Int32Tax(monthlySalary, otherMonthlyIncome, numberOfMonthWorking, deductible, false, numberOfChildren))
  {
    if InInt32(AnnualTaxable(monthlySalary, otherMonthlyIncome, numberOfMonthWorking, deductible, true, numberOfChildren))
       && InInt32(AnnualTaxable(monthlySalary, otherMonthlyIncome, numberOfMonthWorking, deductible, false, numberOfChildren))
    {
      Int32TaxAgreesWithTaxSpec(monthlySalary, otherMonthlyIncome, numberOfMonthWorking, deductible, true, numberOfChildren);
      Int32TaxAgreesWithTaxSpec(monthlySalary, otherMonthlyIncome, numberOfMonthWorking, deductible, false, numberOfChildren);
    }
    TaxFreeIncomeMonotone(numberOfChildren, numberOfChildren);
    TaxOnMonotone(AnnualTaxable(monthlySalary, otherMonthlyIncome, numberOfMonthWorking, deductible, true, numberOfChildren),
                  AnnualTaxable(monthlySalary, otherMonthlyIncome, numberOfMonthWorking, deductible, false, numberOfChildren));
  }

  /** Raising the children count never raises the tax. */
  lemma MoreChildrenNeverPayMore(monthlySalary: Int32, otherMonthlyIncome: Int32, numberOfMonthWorking: Int32,
                                 deductible: Int32, isMarried: bool, numberOfChildren: Int32, moreChildren: Int32)
    requires numberOfChildren <= moreChildren
    ensures TaxSpec(monthlySalary, otherMonthlyIncome, numberOfMonthWorking, deductible, isMarried, moreChildren)
         <= TaxSpec(monthlySalary, otherMonthlyIncome, numberOfMonthWorking, deductible, isMarried, numberOfChildren)
    ensures InInt32(AnnualTaxable(monthlySalary, otherMonthlyIncome, numberOfMonthWorking, deductible, isMarried, moreChildren))
         && InInt32(AnnualTaxable(monthlySalary, otherMonthlyIncome, numberOfMonthWorking, deductible, isMarried, numberOfChildren))
         ==> (Int32Tax(monthlySalary, otherMonthlyIncome, numberOfMonthWorking, deductible, isMarried, moreChildren)
           <= Int32Tax(monthlySalary, otherMonthlyIncome, numberOfMonthWorking, deductible, isMarried, numberOfChildren))
  {
    if InInt32(AnnualTaxable(monthlySalary, otherMonthlyIncome, numberOfMonthWorking, deductible, isMarried, moreChildren))
       && InInt32(AnnualTaxable(monthlySalary, otherMonthlyIncome, numberOfMonthWorking, deductible, isMarried, numberOfChildren))
    {
      Int32TaxAgreesWithTaxSpec(monthlySalary, otherMonthlyIncome, numberOfMonthWorking, deductible, isMarried, moreChildren);
      Int32TaxAgreesWithTaxSpec(monthlySalary, otherMonthlyIncome, numberOfMonthWorking, deductible, isMarried, numberOfChildren);
    }
    TaxFreeIncomeMonotone(numberOfChildren, moreChildren);
    TaxOnMonotone(AnnualTaxable(monthlySalary, otherMonthlyIncome, numberOfMonthWorking, deductible, isMarried, moreChildren),
                  AnnualTaxable(monthlySalary, otherMonthlyIncome, numberOfMonthWorking, deductible, isMarried, numberOfChildren));
  }

  /** With a non-negative number of months, raising the monthly salary never
      lowers the tax. */
  lemma HigherSalaryNeverPaysLess(monthlySalary: Int32, higherSalary: Int32, otherMonthlyIncome: Int32,
                                  numberOfMonthWorking: Int32, deductible: Int32, isMarried: bool,
                                  numberOfChildren: Int32)
    requires monthlySalary <= higherSalary
    requires numberOfMonthWorking >= 0
    ensures TaxSpec(monthlySalary, otherMonthlyIncome, numberOfMonthWorking, deductible, isMarried, numberOfChildren)
         <= TaxSpec(higherSalary, otherMonthlyIncome, numberOfMonthWorking, deductible, isMarried, numberOfChildren)
    ensures InInt32(AnnualTaxable(monthlySalary, otherMonthlyIncome, numberOfMonthWorking, deductible, isMarried, numberOfChildren))
         && InInt32(AnnualTaxable(higherSalary, otherMonthlyIncome, numberOfMonthWorking, deductible, isMarried, numberOfChildren))
         ==> (Int32Tax(monthlySalary, otherMonthlyIncome, numberOfMonthWorking, deductible, isMarried, numberOfChildren)
           <= Int32Tax(higherSalary, otherMonthlyIncome, numberOfMonthWorking, deductible, isMarried, numberOfChildren))
  {
    if InInt32(AnnualTaxable(monthlySalary, otherMonthlyIncome, numberOfMonthWorking, deductible, isMarried, numberOfChildren))
       && InInt32(AnnualTaxable(higherSalary, otherMonthlyIncome, numberOfMonthWorking, deductible, isMarried, numberOfChildren))
    {
      Int32TaxAgreesWithTaxSpec(monthlySalary, otherMonthlyIncome, numberOfMonthWorking, deductible, isMarried, numberOfChildren);
      Int32TaxAgreesWithTaxSpec(higherSalary, otherMonthlyIncome, numberOfMonthWorking, deductible, isMarried, numberOfChildren);
    }
    var lo := (monthlySalary + otherMonthlyIncome) * numberOfMonthWorking;
    var hi := (higherSalary + otherMonthlyIncome) * numberOfMonthWorking;
    assert hi - lo == (higherSalary - monthlySalary) * numberOfMonthWorking;
    assert lo <= hi;
    TaxOnMonotone(AnnualTaxable(monthlySalary, otherMonthlyIncome, numberOfMonthWorking, deductible, isMarried, numberOfChildren),
                  AnnualTaxable(higherSalary, otherMonthlyIncome, numberOfMonthWorking, deductible, isMarried, numberOfChildren));
  }

  /** The 32-bit computation gives the intended tax whenever the exact
      taxable income fits in an int; intermediate overflow alone is harmless. */
  lemma Int32TaxAgreesWithTaxSpec(monthlySalary: Int32, otherMonthlyIncome: Int32, numberOfMonthWorking: Int32,
                                  deductible: Int32, isMarried: bool, numberOfChildren: Int32)
    requires InInt32(AnnualTaxable(monthlySalary, otherMonthlyIncome, numberOfMonthWorking,
                                   deductible, isMarried, numberOfChildren))
    ensures Int32Tax(monthlySalary, otherMonthlyIncome, numberOfMonthWorking, deductible, isMarried, numberOfChildren)
         == TaxSpec(monthlySalary, otherMonthlyIncome, numberOfMonthWorking, deductible, isMarried, numberOfChildren)
  {
  }

  /** As written, a monthly salary high enough for the annual taxable income
      to pass 2^31 - 1 wraps to a negative value and owes nothing: raising the
      salary from 180,000,000 to 190,000,000 drops the tax to 0. */
  lemma SalaryOverflowCounterexample()
    ensures Int32Tax(180000000, 0, 12, 0, false, 0) == 105300000
    ensures Int32Tax(190000000, 0, 12, 0, false, 0) == 0
    ensures TaxSpec(190000000, 0, 12, 0, false, 0) == 111300000
  {
  }

  /** As written, the tax is not monotone in the salary: some raise of the
      monthly salary lowers the tax. */
  lemma Int32TaxNotMonotoneInSalary()
    ensures exists lower: Int32, higher: Int32 ::
      lower <= higher && Int32Tax(higher, 0, 12, 0, false, 0) < Int32Tax(lower, 0, 12, 0, false, 0)
  {
    SalaryOverflowCounterexample();
    assert Int32Tax(190000000, 0, 12, 0, false, 0) < Int32Tax(180000000, 0, 12, 0, false, 0);
  }

  /** As written, marriage can raise the tax: for a salary whose exact
      taxable income lies just above 2^31 - 1 when unmarried, the unmarried
      value wraps to a negative one and owes nothing, while the married
      allowance brings it back into range. */
  lemma Int32TaxNotMonotoneInMarriage()
    ensures exists monthlySalary: Int32 ::
      Int32Tax(monthlySalary, 0, 12, 0, false, 0) < Int32Tax(monthlySalary, 0, 12, 0, true, 0)
  {
    assert Int32Tax(183500000, 0, 12, 0, false, 0) == 0;
    assert Int32Tax(183500000, 0, 12, 0, true, 0) == 107175000;
  }

  /** As written, more children can raise the tax, in the same way: the child
      supplements bring a wrapped taxable income back into range. */
  lemma Int32TaxNotMonotoneInChildren()
    ensures exists monthlySalary: Int32 ::
      Int32Tax(monthlySalary, 0, 12, 0, false, 0) < Int32Tax(monthlySalary, 0, 12, 0, false, 3)
  {
    assert Int32Tax(183500000, 0, 12, 0, false, 0) == 0;
    assert Int32Tax(183500000, 0, 12, 0, false, 3) == 107175000;
  }

  /** Worked examples of the calculation. */
  lemma Examples()
    ensures Int32Tax(10000000, 0, 12, 0, false, 0) == 3300000
    ensures Int32Tax(10000000, 0, 12, 0, true, 2) == 2925000
    ensures Int32Tax(3000000, 0, 12, 0, false, 0) == 0
    ensures Int32Tax(10000000, 0, 13, 0, false, 0) == 0
    ensures Int32Tax(10000000, 0, 12, 0, false, 5) == Int32Tax(10000000, 0, 12, 0, false, 3) == 3075000
  {
  }
}
