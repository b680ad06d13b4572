# Annual income tax of an employee (`TaxFunction.calculateTax`)

This project models the one computation of the tax calculator: the annual
income tax of an employee. The Java code first rejects more than twelve months
worked by returning the default tax 0. It then caps the children count at three
and builds the tax-free allowance: a base of 54,000,000, plus 4,500,000 when
married, plus 1,500,000 per counted child when the count is positive. Taxable
income is `(monthlySalary + otherMonthlyIncome) * months - deductible - allowance`.
A negative taxable income owes 0. Otherwise the tax is 5% of it, rounded.

The model has three modules:

- `JavaInt` (`java_int.dfy`) models Java's 32-bit `int`. The subset type `Int32`
  holds its values. `Wrap` gives two's-complement wrap-around, and `Add`, `Sub`
  and `Mul` are the wrapping operators. Its lemmas show that wrapping each
  intermediate gives the same result as wrapping only the exact final value.
- `TaxFunction` (`tax_function.dfy`) holds the constants and the pieces of the
  computation. It has two tax functions. `TaxSpec` is the intended tax, in
  exact arithmetic. `Int32Tax` is the tax as the 32-bit code computes it. The
  method `CalculateTax` mirrors the Java body step by step, with every `int`
  operation wrapping. It is proved equal to `Int32Tax`, and equal to `TaxSpec`
  whenever the exact taxable income fits in an `int`.
- `TaxProperties` (`tax_properties.dfy`) proves the promised properties. These
  are the validation of months worked, the clamping of children, the allowance,
  the rounding rule, the bounds and monotonicity. It also proves where the
  32-bit code departs from the intended tax.

The method takes every `int` input the Java method accepts. There is no
precondition. As in the source, a negative or zero number of months and a
negative children count are not rejected.

The doc comment of `calculateTax` (line 20) says 4,500,000 per child. The code
adds `CHILD_DEDUCTIBLE` = 1,500,000 per child (lines 9 and 46). The model
follows the code.

Java's `Math.round` applied to the non-negative `float` product rounds half up.
The model computes this exactly in integers as `(TAX_RATE * t + 50) / 100`.
`TaxProperties.RoundingRule` proves that this equals `(t + 10) / 20`.

The functions and the method read and write no state. Equal inputs therefore
give equal results by construction.

## Model

| member | source | states |
|---|---|---|
| `JavaInt.Wrap` | TaxCalculator/src/lib/TaxFunction.java:49 | the value an `int` operation yields is an int32 congruent to the exact result modulo 2^32, and equals it when it fits |
| `JavaInt.Add` | TaxCalculator/src/lib/TaxFunction.java:42 | Java's `+` on ints: the exact sum when it fits, otherwise a value congruent to it modulo 2^32 |
| `JavaInt.Sub` | TaxCalculator/src/lib/TaxFunction.java:49 | Java's `-` on ints: the exact difference when it fits, otherwise a value congruent to it modulo 2^32 |
| `JavaInt.Mul` | TaxCalculator/src/lib/TaxFunction.java:46 | Java's `*` on ints: the exact product when it fits, otherwise a value congruent to it modulo 2^32 |
| `JavaInt.WrapCongruent` | TaxCalculator/src/lib/TaxFunction.java:49 | exact values that differ by a multiple of 2^32 wrap to the same int32 |
| `JavaInt.WrapSubLeft` | TaxCalculator/src/lib/TaxFunction.java:49 | subtracting from an already wrapped value gives the same int as subtracting from the exact value |
| `JavaInt.WrapMulLeft` | TaxCalculator/src/lib/TaxFunction.java:49 | multiplying an already wrapped value gives the same int as multiplying the exact value |
| `JavaInt.WrapStepwise` | TaxCalculator/src/lib/TaxFunction.java:49 | Java's operation-by-operation evaluation of `(a + b) * m - d - f` equals the wrap of the exact value |
| `TaxFunction.ClampChildren` | TaxCalculator/src/lib/TaxFunction.java:37 | the counted children are the minimum of the count and 3: no more than either, and equal to one of them |
| `TaxFunction.TaxFreeIncome` | TaxCalculator/src/lib/TaxFunction.java:37-47 | the allowance lies between 54,000,000 and 63,000,000; it is the base plus 4,500,000 if married, plus 1,500,000 per child for 0 to 3 children; a non-positive count adds nothing; three or more count as three |
| `TaxFunction.AnnualTaxable` | TaxCalculator/src/lib/TaxFunction.java:49 | the exact value of `(salary + other) * months - deductible - allowance`: at most the net income less the 54,000,000 base, at least the net income less 63,000,000 |
| `TaxFunction.RoundedTax` | TaxCalculator/src/lib/TaxFunction.java:55 | the result is TAX_RATE percent of the taxable income rounded half up (`100r - 50 <= 5t < 100r + 50`), between 0 and the taxable income |
| `TaxFunction.TaxOn` | TaxCalculator/src/lib/TaxFunction.java:51-56 | the tax on a taxable income is never negative and never more than a non-negative taxable income |
| `TaxFunction.TaxSpec` | TaxCalculator/src/lib/TaxFunction.java:30-57 | the intended tax in exact arithmetic is never negative |
| `TaxFunction.Int32Tax` | TaxCalculator/src/lib/TaxFunction.java:30-57 | the tax as computed with 32-bit taxable income is a non-negative int |
| `TaxFunction.CalculateTax` | TaxCalculator/src/lib/TaxFunction.java:30-57 | the step-by-step wrapping computation returns `Int32Tax` of its inputs, and returns `TaxSpec` whenever the exact taxable income fits in an int |
| `TaxProperties.MonthsWorkedValidation` | TaxCalculator/src/lib/TaxFunction.java:32-35 | more than 12 months gives the default tax 0 whatever the other inputs; 12 or fewer months gives the tax on the taxable income |
| `TaxProperties.ChildrenClamped` | TaxCalculator/src/lib/TaxFunction.java:37 | any children count of 3 or more gives the same tax as exactly 3, in both tax functions |
| `TaxProperties.NonPositiveChildrenAddNothing` | TaxCalculator/src/lib/TaxFunction.java:45-47 | a zero or negative children count gives the allowance and the tax of no children |
| `TaxProperties.NegativeTaxableOwesNothing` | TaxCalculator/src/lib/TaxFunction.java:49-53 | a negative taxable income (exact for `TaxSpec`, wrapped for `Int32Tax`) gives the default tax 0 |
| `TaxProperties.RoundingRule` | TaxCalculator/src/lib/TaxFunction.java:55 | for t >= 0 the tax is `(t + 10) / 20`, between 0 and t; a tie `t % 20 == 10` rounds up, otherwise the tax is the integer nearest to `t / 20` (`-10 < t - 20 * tax < 10`) |
| `TaxProperties.TaxIsFivePercentOfTaxable` | TaxCalculator/src/lib/TaxFunction.java:55-56 | for an accepted year and a taxable income t >= 0, the tax is `(t + 10) / 20` and between 0 and t |
| `TaxProperties.TaxOnMonotone` | TaxCalculator/src/lib/TaxFunction.java:51-55 | a larger taxable income never owes less tax |
| `TaxProperties.TaxFreeIncomeMonotone` | TaxCalculator/src/lib/TaxFunction.java:41-47 | the allowance is at least as large when married, and does not shrink as the children count grows |
| `TaxProperties.MarriedNeverPaysMore` | TaxCalculator/src/lib/TaxFunction.java:41-55 | with the other inputs fixed, being married never gives more tax; this holds for the 32-bit tax too when both taxable incomes fit in an int |
| `TaxProperties.MoreChildrenNeverPayMore` | TaxCalculator/src/lib/TaxFunction.java:45-55 | raising the children count never raises the tax; the same holds for the 32-bit tax when both taxable incomes fit |
| `TaxProperties.HigherSalaryNeverPaysLess` | TaxCalculator/src/lib/TaxFunction.java:49-55 | with months >= 0, raising the monthly salary never lowers the tax; the same holds for the 32-bit tax when both taxable incomes fit |
| `TaxProperties.Int32TaxAgreesWithTaxSpec` | TaxCalculator/src/lib/TaxFunction.java:49 | when the exact taxable income fits in an int the 32-bit tax equals the intended tax, even if an intermediate overflowed |
| `TaxProperties.SalaryOverflowCounterexample` | TaxCalculator/src/lib/TaxFunction.java:49 | as written, a salary of 190,000,000 for 12 months owes 0 while 180,000,000 owes 105,300,000; the intended tax for 190,000,000 is 111,300,000 |
| `TaxProperties.Int32TaxNotMonotoneInSalary` | TaxCalculator/src/lib/TaxFunction.java:49-53 | as written, there are two monthly salaries where the higher one owes strictly less tax |
| `TaxProperties.Int32TaxNotMonotoneInMarriage` | TaxCalculator/src/lib/TaxFunction.java:41-53 | as written, there is a monthly salary (183,500,000 for 12 months) for which being married owes strictly more tax than being unmarried |
| `TaxProperties.Int32TaxNotMonotoneInChildren` | TaxCalculator/src/lib/TaxFunction.java:45-53 | as written, there is a monthly salary (183,500,000 for 12 months) for which three children owe strictly more tax than none |
| `TaxProperties.Examples` | TaxCalculator/src/lib/TaxFunction.java:30-57 | worked cases: 10,000,000 for 12 months owes 3,300,000; married with 2 children it owes 2,925,000; 3,000,000 owes 0; 13 months owes 0; 5 children are taxed as 3 (3,075,000) |

## Left out

- The error message printed to the standard error stream when more than 12 months are given (line 33) is I/O. Only the returned default tax is modelled.
- `float` arithmetic at line 55 is replaced by exact integer rounding half up. `TAX_RATE / 100f` is not exactly 0.05, and a large taxable income loses precision when converted to `float`. The model does not reproduce either effect, so from a taxable income of about 33,554,450 (just above 2^25) on, the Java result may differ from `RoundedTax` by the `float` rounding error: by one unit at first, growing to a few units near 2^31.
- `TaxFunction.Int32Tax`: monotonicity in marital status, children and salary is proved for it only when both taxable incomes fit in an int, because under wrap-around it fails (see Findings).

## Findings

| source | as written | input that shows it | evidently intended | confidence | as-written member | corrected member |
|---|---|---|---|---|---|---|
| TaxCalculator/src/lib/TaxFunction.java:49 | taxable income is computed in 32-bit `int` and wraps when it passes 2,147,483,647 | monthly salary 190,000,000, no other income, 12 months, no deductible, unmarried, no children: the exact taxable income 2,226,000,000 wraps to -2,068,967,296 and the tax is 0, while 180,000,000 owes 105,300,000 | taxable income in wide arithmetic, so the tax is 111,300,000 and a higher salary never lowers the tax | high (not executed) | `TaxProperties.Int32TaxNotMonotoneInSalary` | `TaxProperties.HigherSalaryNeverPaysLess` |
| TaxCalculator/src/lib/TaxFunction.java:49 | a taxable income just above the `int` maximum wraps to a negative value, so the larger married allowance can turn a tax of 0 into a positive one | monthly salary 183,500,000, no other income, 12 months, no deductible, no children: unmarried the exact taxable income 2,148,000,000 wraps to -2,146,967,296 and the tax is 0; married it is 2,143,500,000, which fits, and the tax is 107,175,000 | taxable income in wide arithmetic, so the unmarried tax is 107,400,000 and being married never owes more | high (not executed) | `TaxProperties.Int32TaxNotMonotoneInMarriage` | `TaxProperties.MarriedNeverPaysMore` |
| TaxCalculator/src/lib/TaxFunction.java:49 | a taxable income just above the `int` maximum wraps to a negative value, so the child supplements can turn a tax of 0 into a positive one | monthly salary 183,500,000, no other income, 12 months, no deductible, unmarried: with no children the exact taxable income 2,148,000,000 wraps to -2,146,967,296 and the tax is 0; with three children it is 2,143,500,000, which fits, and the tax is 107,175,000 | taxable income in wide arithmetic, so the tax without children is 107,400,000 and more children never owe more | high (not executed) | `TaxProperties.Int32TaxNotMonotoneInChildren` | `TaxProperties.MoreChildrenNeverPayMore` |
