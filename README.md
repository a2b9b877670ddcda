# Static type computation of the langium-sql front end

This project models the type computer of the langium-sql SQL front end
(`packages/langium-sql/src/sql-type-computation.ts`) in Dafny. The type
computer takes a name-resolved syntax node and returns a type descriptor, or
no type (`undefined`). It dispatches on the kind of expression or declared
data type. It classifies numeric literals as Integer or Real from their
lexeme, resolves operators by a first-match scan of per-operator candidate
tables, and derives row types for sub-queries.

Layout, one module per component:

- `wrappers.dfy` (`Wrappers`): `Option`, the model's `T | undefined`.
- `type_descriptors.dfy` (`TypeDescriptors`): the `TypeDescriptor` variant. Also
  `Dialect`, which bundles the collaborators the type computer consults:
  `areTypesEqual`, `canConvert` and the binary and unary operator tables.
  They are parameters, and nothing is assumed about them.
- `numeric_literals.dfy` (`NumericLiterals`): the literal pattern as a parser
  with its inverse. It has the classifier as written and the corrected one.
- `operators.dfy` (`Operators`): `computeTypeOfBinaryOperation` and
  `computeTypeOfUnaryOperation`, as recursive first-match scans.
- `sql_syntax.dfy` (`SqlSyntax`): the syntax nodes. Every resolved link is
  an `Option` holding the linked declaration's content. A sub-query node
  carries its projected columns, already enumerated.
- `type_computation.dfy` (`TypeComputation`): `computeType`,
  `computeTypeOfExpression`, `computeTypeOfDataType` and
  `computeTypeOfSelectStatement`. An `Outcome` keeps three results apart:
  a type, no type, and the `'TODO'` error thrown for CTE column names.
  That error propagates out of every enclosing computation, as the
  exception does.
- `type_computation_properties.dfy` (`TypeComputationProperties`): the
  per-kind rules and the properties that span the recursion.
- `scenarios.dfy` (`Scenarios`): worked scenarios over a small sample dialect.

Four behaviours of the source are easy to misread. The model follows the code in the first three; the fourth is a defect, and the model records the code as written and then uses the corrected classifier (see Findings and Left out):

- A list is wrapped in `ArrayOf` whenever its container is a negatable `IN`.
  Which operand the list is does not matter. `ListRule` states this.
- Operator resolution checks exact match and then implicit conversion for
  each candidate in turn. So a later exact candidate can lose to an earlier
  candidate that matches only by widening.
  `EarlierWideningShadowsLaterExactMatch` exhibits this.
- A column link of the wrong declaration kind gives no type; it is not
  fatal. Only the variable kind is closed, and the closed datatype makes
  that case disappear.
- The fractional count of a numeric literal is not the number of fraction
  digits, so "1.25e1" is Integer as written (see Findings). "1.5e1" (15)
  is Integer under both classifiers.

## Model

| member | source | states |
|---|---|---|
| `TypeComputation.ComputeType` | packages/langium-sql/src/sql-type-computation.ts:54-61 | raises the 'TODO' error exactly when the node is an expression whose computation reaches a CTE column name |
| `TypeComputationProperties.ComputeTypeRule` | packages/langium-sql/src/sql-type-computation.ts:54-61 | an expression node gets its expression's type, a data-type node its descriptor, and any other node no type |
| `TypeComputation.ComputeTypeOfExpression` | packages/langium-sql/src/sql-type-computation.ts:63-159 | the 'TODO' error is raised exactly when the computation follows a link to a CTE column name (through casts, sub-query projections, first list items, unary and binary operands, column names and sub-query columns; never through BETWEEN) |
| `TypeComputation.ComputeTypeOfCast` | packages/langium-sql/src/sql-type-computation.ts:64-68 | a cast raises the 'TODO' error exactly when its operand's computation reaches a CTE column name |
| `TypeComputation.CastOutcome` | packages/langium-sql/src/sql-type-computation.ts:64-68 | the operand's error or lack of type passes through, and the cast raises no error of its own; the result is typed exactly when the operand is typed and converts explicitly to the target, and then it is the target's descriptor |
| `TypeComputation.ComputeTypeOfTableRelatedColumn` | packages/langium-sql/src/sql-type-computation.ts:78-98 | `variable.column` raises the error exactly when the variable is a sub-query and its linked projection reaches a CTE column name |
| `TypeComputation.ComputeTypeOfList` | packages/langium-sql/src/sql-type-computation.ts:99-106 | a list raises the error exactly when it is non-empty and its first item reaches a CTE column name; later items are never visited |
| `TypeComputation.ListOutcome` | packages/langium-sql/src/sql-type-computation.ts:99-106 | the first item's error or lack of type passes through unchanged; a typed first item gives its type, wrapped in `ArrayOf` exactly under IN |
| `TypeComputation.ComputeTypeOfUnary` | packages/langium-sql/src/sql-type-computation.ts:107-112 | a unary expression raises the error exactly when its operand reaches a CTE column name |
| `TypeComputation.UnaryOutcome` | packages/langium-sql/src/sql-type-computation.ts:107-112 | operator resolution adds no error: the error comes from the operand or not at all |
| `TypeComputation.ComputeTypeOfColumnName` | packages/langium-sql/src/sql-type-computation.ts:119-132 | a bare column name raises the error exactly when it is a CTE column name or a projection whose expression reaches one |
| `TypeComputation.ComputeTypeOfBinary` | packages/langium-sql/src/sql-type-computation.ts:141-148 | a binary or negatable expression raises the error exactly when either operand reaches a CTE column name |
| `TypeComputation.BinaryOutcome` | packages/langium-sql/src/sql-type-computation.ts:141-148 | both operands are computed; the error surfaces if either raises it, and a type results only when both operands are typed |
| `TypeComputation.ComputeTypeOfDataType` | packages/langium-sql/src/sql-type-computation.ts:171-194 | each declared data type maps to the descriptor that maps back to it: one-to-one, Char length and Enum members kept, never Null, array or row |
| `TypeComputationProperties.DataTypeMappingIsInjective` | packages/langium-sql/src/sql-type-computation.ts:171-194 | distinct declared data types get distinct descriptors |
| `TypeComputation.ComputeTypeOfColumn` | packages/langium-sql/src/sql-type-computation.ts:164-167 | a projected column's computation raises the error exactly when its node reaches a CTE column name |
| `TypeComputation.ComputeTypeOfSelectStatement` | packages/langium-sql/src/sql-type-computation.ts:161-169 | the result is a row (never "no type") with one column per projected column, in order and with the same names, unless some column raises the 'TODO' error, and exactly then |
| `TypeComputationProperties.SelectRowColumns` | packages/langium-sql/src/sql-type-computation.ts:161-169 | row column i holds `computeType` of projected column i's node, or none when that is untyped |
| `TypeComputationProperties.SubQueryIsRowType` | packages/langium-sql/src/sql-type-computation.ts:152-154 | a sub-query expression's type is the row type of its projection, never "no type" |
| `TypeComputationProperties.SubQueryColumnMatchesRowType` | packages/langium-sql/src/sql-type-computation.ts:88-93 | `subquery.column` has the type the sub-query's row type records for that column |
| `TypeComputationProperties.CastRule` | packages/langium-sql/src/sql-type-computation.ts:64-68 | a cast is typed exactly when its operand is typed and converts explicitly to the target, and then has exactly the target's descriptor |
| `TypeComputationProperties.ListRule` | packages/langium-sql/src/sql-type-computation.ts:99-106 | a list has its first item's type, wrapped in ArrayOf exactly when it is typed and the container is an IN; empty or untyped first item gives no type |
| `TypeComputationProperties.UnaryRule` | packages/langium-sql/src/sql-type-computation.ts:107-112 | typed only when the operand is; the type is the first candidate whose operand type equals the operand's, else no type |
| `TypeComputationProperties.UnaryExpressionIgnoresConversion` | packages/langium-sql/src/sql-type-computation.ts:107-112 | replacing the conversion relation leaves a unary expression's type unchanged when its operand's is unchanged: no conversion fallback |
| `TypeComputationProperties.BinaryOutcomeRule` | packages/langium-sql/src/sql-type-computation.ts:144-147 | given the operand outcomes: typed only when both are typed; the type is the first candidate in table order matching exactly or by implicit conversion, else no type; the error surfaces if either operand raised it |
| `TypeComputationProperties.BinaryRule` | packages/langium-sql/src/sql-type-computation.ts:141-148 | a binary expression is typed only when both operands are; the type is the first candidate in table order matching exactly or by implicit conversion, else no type |
| `TypeComputationProperties.NegatableRule` | packages/langium-sql/src/sql-type-computation.ts:141-148 | a negatable expression has the type of the binary expression with the same operator and operands; negation does not matter |
| `TypeComputationProperties.UntypedOperandPropagates` | packages/langium-sql/src/sql-type-computation.ts:64-148 | an untyped visited operand makes a cast, unary, binary, negatable or list expression untyped, unless the error is raised |
| `TypeComputationProperties.TableRelatedColumnRule` | packages/langium-sql/src/sql-type-computation.ts:78-98 | `table.column` gives the column definition's data type, `subquery.column` the projected expression's type; unlinked variables and wrong-kind column links give no type |
| `TypeComputationProperties.ColumnNameRule` | packages/langium-sql/src/sql-type-computation.ts:119-132 | a bare column name: unlinked gives no type, a projection its expression's type, a column its data type, a CTE column name the 'TODO' error |
| `TypeComputationProperties.FunctionCallRule` | packages/langium-sql/src/sql-type-computation.ts:133-140 | a resolved call has its declared return type, an unresolved one no type |
| `TypeComputationProperties.LiteralRule` | packages/langium-sql/src/sql-type-computation.ts:72-77 | Null for the null literal and Integer for hex strings (string literals, booleans and identifiers as strings: lines 113-118 and 155-157 give Char without length and Boolean) |
| `TypeComputationProperties.BetweenRule` | packages/langium-sql/src/sql-type-computation.ts:149-151 | BETWEEN is Boolean whatever its operands, even ones that would raise the 'TODO' error |
| `TypeComputationProperties.NumberLiteralTyping` | packages/langium-sql/src/sql-type-computation.ts:69-71 | a number literal has the corrected classifier's type, Integer or Real; this departs from the code as written (see Left out) |
| `NumericLiterals.Parse` | packages/langium-sql/src/sql-type-computation.ts:196 | an accepted lexeme splits into well-formed groups that render back to the lexeme |
| `NumericLiterals.ParseRender` | packages/langium-sql/src/sql-type-computation.ts:196 | rendering well-formed groups and matching the text again gives the same groups |
| `NumericLiterals.FractionDigitCapture` | packages/langium-sql/src/sql-type-computation.ts:196-201 | group 4 is present exactly when a fraction is, and is always one character long |
| `NumericLiterals.ComputeTypeOfNumericLiteralAsWritten` | packages/langium-sql/src/sql-type-computation.ts:197-204 | the code as written, reading the pattern's captures: Integer or Real, and Integer exactly when (1 if a fraction is present, else 0) is at most the signed exponent, because group 4 is one character long |
| `NumericLiterals.ComputeTypeOfNumericLiteral` | packages/langium-sql/src/sql-type-computation.ts:197-204 | the corrected classification: Integer or Real, and Integer exactly when the number of fraction digits is at most the signed exponent |
| `NumericLiterals.NumericLiteralAsWrittenRule` | packages/langium-sql/src/sql-type-computation.ts:196-204 | as written: Integer iff `max(0, f - e) == 0` with f = 1 when a fraction is present; exponent >= 1 gives Integer, a negative exponent Real |
| `NumericLiterals.NumericLiteralRule` | packages/langium-sql/src/sql-type-computation.ts:197-204 | corrected: Integer iff the exponent is at least the number of fraction digits; a negative exponent gives Real |
| `NumericLiterals.AsWrittenDiffersExactly` | packages/langium-sql/src/sql-type-computation.ts:196-203 | the two disagree exactly for two or more fraction digits and an exponent from 1 to below the digit count, and then the source says Integer |
| `NumericLiterals.AsWrittenMisclassifiesExample` | packages/langium-sql/src/sql-type-computation.ts:196-203 | "1.25e1" (12.5) is Integer as written and Real when corrected |
| `NumericLiterals.ClassifyRendered` | packages/langium-sql/src/sql-type-computation.ts:197-204 | both classifiers on a rendered lexeme, in terms of its groups |
| `NumericLiterals.IntegerLiteralExamples` | packages/langium-sql/src/sql-type-computation.ts:197-204 | "42" and "15e2" are Integer |
| `NumericLiterals.FractionalIntegerLiteralExample` | packages/langium-sql/src/sql-type-computation.ts:197-204 | "1.50e2" is Integer |
| `NumericLiterals.RealLiteralExamples` | packages/langium-sql/src/sql-type-computation.ts:197-204 | "3.14" and "150e-2" are Real |
| `Operators.FirstApplicableBinary` | packages/langium-sql/src/sql-type-computation.ts:212-221 | the result is the return type of the first candidate matching exactly or by implicit conversion; none exactly when no candidate does |
| `Operators.ComputeTypeOfBinaryOperation` | packages/langium-sql/src/sql-type-computation.ts:206-222 | the same first-match characterisation over the operator's table |
| `Operators.BinaryResolutionOfConcatenation` | packages/langium-sql/src/sql-type-computation.ts:211-221 | appending candidates never changes a resolution the table already gives; otherwise only the appended ones decide |
| `Operators.EarlierCandidateWins` | packages/langium-sql/src/sql-type-computation.ts:212-219 | the first applicable candidate decides, even when a later one matches exactly |
| `Operators.FirstApplicableUnary` | packages/langium-sql/src/sql-type-computation.ts:229-234 | the result is the return type of the first candidate whose operand type equals the operand's; none when no candidate's does |
| `Operators.ComputeTypeOfUnaryOperation` | packages/langium-sql/src/sql-type-computation.ts:224-235 | the same first-match characterisation over the operator's table, by type equality only |
| `Operators.UnaryResolutionIgnoresConversion` | packages/langium-sql/src/sql-type-computation.ts:229-233 | unary resolution is the same whatever the conversion relation |
| `Scenarios.PlusOnIntegers` | packages/langium-sql/src/sql-type-computation.ts:206-222 | with [(Integer, Integer), (Real, Real)] for '+', Integer + Integer is Integer by the first, exact candidate |
| `Scenarios.PlusWidensInteger` | packages/langium-sql/src/sql-type-computation.ts:206-222 | with the same table, Integer + Real is Real: the first candidate fails both ways, the second applies by widening |
| `Scenarios.PlusRejectsBoolean` | packages/langium-sql/src/sql-type-computation.ts:206-222 | with the same table, Boolean + Real has no type |
| `Scenarios.EarlierWideningShadowsLaterExactMatch` | packages/langium-sql/src/sql-type-computation.ts:212-219 | with [(Real, Real), (Integer, Integer)], Integer + Integer is Real |
| `Scenarios.UnaryHasNoConversionFallback` | packages/langium-sql/src/sql-type-computation.ts:224-235 | a Real-only unary minus gives no type for Integer even though Integer widens to Real |
| `Scenarios.CastRejection` | packages/langium-sql/src/sql-type-computation.ts:64-68 | casting a string to Boolean without an explicit rule gives no type; to DateTime it gives DateTime |
| `Scenarios.OneIsIntegerLiteral` | packages/langium-sql/src/sql-type-computation.ts:197-204 | "1" is a lexeme and is Integer |
| `Scenarios.MembershipList` | packages/langium-sql/src/sql-type-computation.ts:99-106 | (1, 2, 1) is ArrayOf(Integer) under IN and Integer elsewhere |
| `Scenarios.UnresolvedReferenceInBinary` | packages/langium-sql/src/sql-type-computation.ts:141-148 | an unlinked column name on either side of '+' leaves the sum untyped |
| `Scenarios.RowTypeKeepsProjectionOrder` | packages/langium-sql/src/sql-type-computation.ts:161-169 | projecting (a, b) gives the row [(a, Char), (b, Boolean)] in that order |

## Findings

| source | as written | input that shows it | evidently intended | confidence | as-written member | corrected member |
|---|---|---|---|---|---|---|
| packages/langium-sql/src/sql-type-computation.ts:196-203 | group 4 of the pattern is the quantified single digit `(\d)+`, which keeps only its last iteration, so `match[4].length` is 1 for any fraction | "1.25e1" (12.5): f = 1, e = 1, so Integer | f is the number of fraction digits (2), so "1.25e1" is Real | high; not executed | `NumericLiterals.ComputeTypeOfNumericLiteralAsWritten`, shown by `NumericLiterals.AsWrittenMisclassifiesExample` and `NumericLiterals.AsWrittenDiffersExactly` | `NumericLiterals.ComputeTypeOfNumericLiteral`, proved by `NumericLiterals.NumericLiteralRule`; the number-literal case of `TypeComputation.ComputeTypeOfExpression` uses it |

## Left out

- Lexing, parsing and CST access: a number literal carries its lexeme text directly, not `$cstNode!.text`. Its type `Lexeme` admits only text the pattern matches, because a non-matching lexeme makes `exec(...)!` crash in the source instead of giving a result.
- Name resolution: links are `Option`s holding the linked declaration's content, so sharing of one declaration by many references is not captured. The tree is read-only, so this changes no result.
- `getFromGlobalReference` is not part of this model. A function call's link already holds the function definition, or nothing.
- `getColumnsForSelectTableExpression` is not part of this model. A sub-query node carries the column list it would return. The source's optional `selectStatement` argument is therefore not modelled.
- `areTypesEqual`, `canConvert` and the `BinaryOperators`/`UnaryOperators` tables are not part of this model; they are fields of `Dialect`, with no properties assumed. Tables are total functions from operator to candidates, so the TypeError a missing table entry would raise is not modelled.
- The `$container.$type` / `$container.operator` check is a boolean flag on the list node.
- `TypeComputation.ComputeTypeOfExpression`: the number-literal case uses the corrected classifier `NumericLiterals.ComputeTypeOfNumericLiteral`, not the code as written at line 70. For literals with at least two fraction digits and an exponent from 1 up to one less than the digit count, such as "1.25e1" or "1.50e1", the model says Real where the code says Integer. `NumericLiterals.AsWrittenDiffersExactly` characterises exactly these literals.
- `TypeComputationProperties.NumberLiteralTyping`: it states the corrected classifier's type for the same reason, so it does not hold of the code as written for the literals just described.
- `parseInt` is unbounded integer parsing. JavaScript number rounding and `Infinity` for huge exponents are not modelled; they would classify the same way.
- `assertUnreachable` branches do not appear, because node kinds are closed datatypes.
- The unused `lodash` import, and the test plumbing in `packages/langium-sql/test/test-utils.ts`: service construction, documents, `expect`/`assert`.
