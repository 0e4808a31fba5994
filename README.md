# mal (beenotung) in Dafny: three readers and evaluators of a small Lisp

This project models the core of the TypeScript repository `beenotung/mal`. The repository
holds three generations of a Lisp-style interpreter. Each one reads S-expression text into
a syntax tree, and each one evaluates `(op arg …)` lists through a table of built-in
functions.

- **First generation** (`src/`):
  - `math.ts` has `gcd` and `lcm`.
  - `token.ts` has keyword interning and the `rational` constructor, which its tests expect.
  - `reader.ts` is a string-slicing reader that dispatches on the class of the first character.
  - `evaluate.ts` folds `+ - * /` over raw arguments, adds rationals exactly, and keeps a private copy `gcm`/`lcm` of Euclid's loop.
- **Second generation** (`src2/core.ts`): a reader that trims before every expression and supports quotes and raw `p/q` rationals. Its `evaluate` defines one function, `+`, in a plain object, so it also finds and calls the members every object inherits, such as `constructor` and `toString`.
- **Third generation** (`src3/`):
  - `parse.ts` is a `Parser` object that moves an offset through its input.
  - `evaluate.ts` is an `Environment` object with a function table, a parent chain and an argument loop.
  - `ast.ts` holds the node type.

The model follows the source's form:

- **Pure dispatch** becomes Dafny functions.
- **Loops** (Euclid's loop, the string, name, list and `+` loops, the argument-array loop) become methods with loop invariants. Each method is proved to compute the function that specifies it.
- **Objects that are updated in place** become classes with `modifies` clauses: the keyword registry, the `Parser` with its offset, and the `Environment` with its table and parent.

The lemmas then state what the source promises about those functions:

- **Read-back:** every printable tree reads back from its printed text, in all three readers.
- **Scanners:** each one stops exactly where its description says.
- **Errors:** each error case is stated.
- **Euclid:** it computes the greatest common divisor.
- **`rational`:** it is canonical.
- **Folds:** they compute sums and products.
- **`get_fn`:** it finds a binding on the parent chain.
- **Argument loop:** it evaluates element by element, left to right.
- **Tests:** the cases in the repository's tests are worked through.

Modules:

| file | module | models |
|---|---|---|
| results.dfy | Results | `Option` and `Result` |
| text.dfy | Text | `trim`, `slice`, decimal digit runs |
| numerals.dfy | Numerals | `parseFloat` and `String(number)` on integers |
| number_theory.dfy | NumberTheory | src/math.ts, and `gcm`/`lcm` of src/evaluate.ts |
| token.dfy | Token | src/token.ts, and the test-specified `rational` |
| reader.dfy, reader_laws.dfy | Reader, ReaderLaws | src/reader.ts |
| evaluate.dfy | Evaluate | src/evaluate.ts |
| core2.dfy, core2_laws.dfy | Core2, Core2Laws | src2/core.ts |
| ast3.dfy | Ast3 | src3/ast.ts |
| parse3.dfy, parse3_laws.dfy, parse3_examples.dfy, parse3_findings.dfy | Parse3, Parse3Laws, Parse3Examples, Parse3Findings | src3/parse.ts |
| evaluate3.dfy, evaluate3_examples.dfy | Evaluate3, Evaluate3Examples | src3/evaluate.ts |

Where a test and the code disagree, the model follows the code. Examples:

- `(- 5 2)` is −7 and `(/ 6 3)` is 0 in src/evaluate.ts, because both folds start from 0.
- `parse('2/3')` in the first generation is `rational(2, 3)`, not the `rational-number` shape its test expects.
- A string `+` in src2 fails at its first argument.
- `concat` is not defined.

## Model

| member | source | states |
|---|---|---|
| NumberTheory.GcdLoop | src/math.ts:5-22 | gcd's loop, run on the absolute values, returns Gcd(a, b): a non-negative common divisor of a and b |
| NumberTheory.EuclidDivides | src/math.ts:9-21 | the loop's result divides both operands (induction over the swap and remainder steps) |
| NumberTheory.EuclidGreatest | src/math.ts:9-21 | every common divisor of the operands divides the loop's result |
| NumberTheory.GcdDivides | src/math.ts:5-22 | gcd(a, b) divides a and b |
| NumberTheory.GcdGreatest | src/math.ts:5-22 | every common divisor of a and b divides gcd(a, b), so it is the greatest |
| NumberTheory.GcdSymmetric | src/math.ts:12-16 | gcd(a, b) = gcd(b, a), since the a < b branch only swaps |
| NumberTheory.GcdOnAbsoluteValues | src/math.ts:6-11 | gcd(a, 0) = gcd(a, a) = abs(a), and negating either operand leaves gcd unchanged |
| NumberTheory.GcdZero | src/math.ts:5-22 | gcd(a, b) = 0 exactly when a = b = 0 |
| NumberTheory.LcmProperties | src/math.ts:1-3 | lcm is undefined (0/0) exactly for (0, 0); otherwise lcm·gcd = a·b, lcm is a common multiple of a and b, and its sign is that of a·b |
| NumberTheory.GcmLoop | src/evaluate.ts:90-105 | gcm, with no absolute value taken, returns Gcd(a, b) on non-negative operands |
| NumberTheory.GcmCyclesOnNegative | src/evaluate.ts:90-105 | with the host's truncating `%`, gcm(−2, 3) reaches (−2, 1) and comes back to it two iterations later, so it never returns |
| Token.MakeRationalNormalizes | src/token.spec.ts:5-28 | rational(up, down) keeps the value up/down. It is a plain number exactly when down divides up. Otherwise it is a rational in lowest terms with a positive denominator above 1 |
| Token.MakeRationalCanonical | src/token.spec.ts:5-28 | two calls to rational give the same node exactly when their fractions are equal, which is why the tests compare with deep equality |
| Token.LowestTermsUnique | src/token.spec.ts:19-28 | a fraction has exactly one lowest-terms form with a positive denominator |
| Token.MakeRationalOfNormalized | src/token.spec.ts:5-15 | a fraction already in lowest terms is kept as it is, and n/1 is the number n |
| Token.MakeRationalExamples | src/token.spec.ts:5-28 | rational(2,3) = 2/3; rational(2,1) = rational(4,2) = 2; rational(3,6) = 1/2; rational(−1,−2) = 1/2; rational(1,−2) = −1/2 |
| Token.KeywordTable.constructor | src/token.ts:8 | the registry starts empty |
| Token.KeywordTable.Intern | src/token.ts:10-17 | keyword(v) returns an instance named v. An existing entry is returned as it is; otherwise a fresh instance is registered. The registry becomes the old one with v bound to the result, and no other entry changes |
| Token.KeywordTable.InternTwice | src/token.ts:10-17 | two calls with the same name return the identical instance |
| Token.InternedIdentity | src/token.ts:10-17 | in a valid registry two instances are the same object exactly when their names are equal |
| Text.TrimIdempotent | src/reader.ts:5 | trimming twice is trimming once |
| Text.TrimIsInfix | src/reader.ts:5 | trim keeps a contiguous piece of its input with no white space at either end |
| Text.DigitsValueOfDecimal | src/reader.ts:119-123 | the decimal digits of n read back as n |
| Numerals.ParseFloatOfJsString | src/reader.ts:119-123 | parseFloat of String(v), followed by text that cannot extend a number, gives v back |
| Numerals.ParseFloatFits | src/reader.ts:119-123 | String(parseFloat(s)) is never longer than s, so the slice after it stays within the text |
| Reader.CharTypeOf | src/reader.ts:57-87 | parse_char_type: a digit is Digit, exactly space, newline and tab are Whitespace, and no character is Empty |
| Reader.ParseOne | src/reader.ts:13-34 | whatever parse_one reads consumes text and is a well-formed tree |
| Reader.ParseList | src/reader.ts:162-183 | parse_bracket's loop consumes text, returns a list, and keeps the elements read before as a prefix |
| Reader.ParseNumber | src/reader.ts:89-117 | parse_number consumes text and returns a well-formed number or rational |
| Reader.NumberEnd | src/reader.ts:103-116 | after a number only white space (trimmed), the end or `)` is accepted, and the number is kept |
| Reader.StringFrom | src/reader.ts:125-160 | parse_string's loop returns a string node and leaves only text after the closing quote |
| Reader.NameLength | src/reader.ts:185-222 | a name is the maximal run of characters before white space or `)` |
| Reader.ParseKeyword | src/reader.ts:185-203 | parse_keyword always succeeds and consumes the colon |
| Reader.ParseSymbol | src/reader.ts:205-222 | parse_symbol always succeeds and consumes text |
| Reader.Read | src/reader.ts:4-11 | parse as a method returns Parse(input). The registry only grows, and every keyword in the result is registered |
| Reader.ReadOne | src/reader.ts:13-34 | parse_one as a method returns ParseOne(s), with the same registry guarantees |
| Reader.ScanString | src/reader.ts:125-160 | the for(;;) string loop returns ParseString(s) |
| Reader.ScanName | src/reader.ts:185-222 | the name loop returns the name NameLength measures and the text after it |
| Reader.ScanKeyword | src/reader.ts:185-203 | parse_keyword interns its name and returns ParseKeyword(s); the name is then registered |
| Reader.ScanSymbol | src/reader.ts:205-222 | parse_symbol returns ParseSymbol(s) |
| Reader.ScanBracket | src/reader.ts:162-183 | parse_bracket's loop, pushing each element, returns ParseList of the text after `(` |
| Reader.RegisteredGrows | src/token.ts:12-15 | a tree whose keywords are registered stays so when the registry grows |
| ReaderLaws.ParsePrint | src/reader.ts:4-11 | parse(print(a)) = a for every printable tree: non-negative numbers, normalized rationals, strings, keywords, symbols and nested lists |
| ReaderLaws.ReadsBack | src/reader.ts:13-34 | parse_one on a printed tree followed by a space, `)` or nothing gives the tree back, and its rest trims to what followed |
| ReaderLaws.ListReadsBack | src/reader.ts:162-183 | the bracket loop over printed elements separated by spaces returns them in order, followed by the trimmed text after `)` |
| ReaderLaws.StringReadsBack | src/reader.ts:125-160 | an escaped string between quotes reads back as itself, and the text after it is untouched |
| ReaderLaws.UnterminatedString | src/reader.ts:130-139 | without a closing quote, parse_string fails with 'missing terminating string quote' |
| ReaderLaws.TrailingBackslash | src/reader.ts:145-153 | a backslash as the final character fails with 'missing char after escape sequence' |
| ReaderLaws.KeywordReadsBack | src/reader.ts:185-203 | `:name` reads as the keyword of that name, and `(`, `"` and `:` inside it belong to the name |
| ReaderLaws.SymbolReadsBack | src/reader.ts:205-222 | a name that starts with a symbol character reads as the symbol of that name |
| ReaderLaws.NegativeNumberIsSymbol | src/reader.ts:13-25 | "-5" reads as the symbol named "-5", never as a number |
| ReaderLaws.WhitespaceAfterOpen | src/reader.ts:162-163 | white space right after `(` is 'unexpected char_type', because the bracket does not trim |
| ReaderLaws.UnclosedList | src/reader.ts:162-183 | `(` followed by printed elements and then the end of input: the bracket loop reads every element, then fails with 'missing close-bracket', carrying those elements and the empty rest |
| ReaderLaws.UnclosedElements | src/reader.ts:165-182 | the bracket loop over space-separated printed elements with no `)` reads them all after the ones it already had, then fails with 'missing close-bracket' |
| ReaderLaws.UnclosedListExample | src/reader.ts:162-183 | parse("(1 2") fails with 'missing close-bracket' after reading 1 and 2 |
| ReaderLaws.NoExpressionAt | src/reader.ts:26-33 | `)`, white space or nothing where an expression should start is 'unexpected char_type' |
| ReaderLaws.NumberFollowedByName | src/reader.ts:103-114 | a number followed by a name character ("12abc") is an error at that character |
| ReaderLaws.LeadingZeroLeavesDigit | src/reader.ts:119-123 | "0m" drops only String(m).length characters, so a digit is left behind and the number ends badly |
| ReaderLaws.EmptySymbol | src/reader.ts:4-7 | parse gives the symbol `empty` exactly for blank input and for the text "empty" |
| ReaderLaws.SymbolOnlyFromSymbolChar | src/reader.ts:13-25 | only a symbol character at the start gives a symbol node |
| ReaderLaws.RationalNumber | src/reader.ts:95-101 | `u/d` builds rational(u, d) before the end check |
| ReaderLaws.RationalReadsBack | src/reader.ts:89-117 | a printed normalized rational reads back as itself |
| Evaluate.Evaluate | src/evaluate.ts:4-29 | a keyword evaluates to a lookup request; every other atom evaluates to itself; an empty list fails with 'empty list' |
| Evaluate.AddAll | src/evaluate.ts:47 | the + fold succeeds exactly when every argument is numeric, and it returns a well-formed number |
| Evaluate.Add | src/evaluate.ts:64-84 | add succeeds exactly on two numbers and gives a well-formed number; otherwise it fails with 'unexpected types' naming both operands |
| Evaluate.AddIsSum | src/evaluate.ts:64-82 | whichever branch it takes, add gives the canonical rational of the textbook sum of its operands |
| Evaluate.AddAllIsSum | src/evaluate.ts:47 | the + fold gives the canonical rational of the sum of all its operands |
| Evaluate.PlusIsSum | src/evaluate.ts:44-47 | (+ a1 … an) is the exact sum, and (+) is 0 |
| Evaluate.AddAllRejects | src/evaluate.ts:47-83 | the first string or symbol among +'s arguments is the operand the error names |
| Evaluate.SubtractAllIsSum | src/evaluate.ts:49 | subtracting one argument at a time takes away their sum |
| Evaluate.MultiplyAllIsProduct | src/evaluate.ts:51 | multiplying one argument at a time multiplies by their product |
| Evaluate.DivideFromZero | src/evaluate.ts:53 | the quotient fold starts at 0 and never leaves it |
| Evaluate.MinusIsNegatedSum | src/evaluate.ts:48-49 | (- a1 … an) is 0 minus the sum of the arguments |
| Evaluate.TimesIsProduct | src/evaluate.ts:50-51 | (* a1 … an) is the product of the arguments |
| Evaluate.DivideIsZero | src/evaluate.ts:52-53 | (/ a1 … an) is 0 for all non-zero arguments |
| Evaluate.UnexpectedHead | src/evaluate.ts:54-60 | any other head fails with 'unexpected fn', carrying the head and the remaining arguments |
| Evaluate.DenominatorLcm | src/evaluate.ts:86-88 | lcm of two positive denominators is positive and a multiple of both |
| Evaluate.LcmByGcm | src/evaluate.ts:86-105 | lcm computed through the gcm loop equals DenominatorLcm |
| Evaluate.PlusExamples | src/evaluate.spec.ts:60-63 | (+) = 0, (+ 2) = 2, (+ 2 3) = 5, (+ 2 3 4) = 9 |
| Evaluate.MinusExamples | src/evaluate.ts:48-49 | (-) = 0, (- 5) = −5, (- 5 2) = −7 where the test expects 3, and (- 5 2 1) = −8 where it expects 2 |
| Evaluate.TimesDivideExamples | src/evaluate.ts:50-53 | (* 2 3 4) = 24, and (/ 6 3) = 0, where the test expects 2 |
| Evaluate.ThirdPlusThird | src/evaluate.spec.ts:65-67 | rational(1,3) + rational(1,3) deep-equals rational(2,3) |
| Core2.ParseOne | src2/core.ts:44-124 | blank input fails with 'empty input'. A success consumes text, except a `)` where an expression is due, which reads as the empty symbol |
| Core2.Dispatch | src2/core.ts:48-124 | the dispatch on the first character of trimmed text consumes text, except a `)`, which reads as the empty symbol with the trimmed text as its rest |
| Core2.ParseAtom | src2/core.ts:96-123 | a number, rational or name succeeds only by consuming text, except the empty name read at `)` |
| Core2.ReadTrimmed | src2/core.ts:48-124 | the dispatch as a method returns Dispatch(s) |
| Core2.ParseList | src2/core.ts:51-63 | the list loop consumes text |
| Core2.ListKeepsItems | src2/core.ts:51-63 | the list loop only appends: a list it returns starts with the items read before |
| Core2.StringFrom | src2/core.ts:66-81 | the string loop returns a string node and consumes text |
| Core2.NameLength | src2/core.ts:126-142 | a name is the maximal run before `)`, space, tab, CR or LF |
| Core2.ParseName | src2/core.ts:126-145 | parse_name returns a prefix of its input and a shorter rest |
| Core2.Evaluated | src2/core.ts:248-261 | a node that is not a list fails with 'cannot evaluate'. A success is an int from `+`, the list node itself from the inherited `constructor`, or the bare string "[object Undefined]" from the inherited `toString` |
| Core2.CallInherited | src2/core.ts:220-258 | func_dict is a plain object, so an inherited member is found and called: exactly `constructor` and `toString` return, and every other inherited member throws |
| Core2.Sum | src2/core.ts:222-235 | `+` succeeds exactly when every argument is an int, and returns an int |
| Core2.Read | src2/core.ts:36-42 | parse as a method returns Parse(input) |
| Core2.ReadOne | src2/core.ts:44-124 | parse_one as a method, with its list, string and name loops, returns ParseOne(input) |
| Core2.ScanList | src2/core.ts:51-63 | the list loop, pushing each element, returns the dispatch's result |
| Core2.ScanString | src2/core.ts:66-81 | the `string +=` loop returns StringFrom(s, 1, "") |
| Core2.ScanName | src2/core.ts:126-145 | parse_name's loop returns ParseName(s) |
| Core2.Add | src2/core.ts:222-246 | the `+` accumulator loop returns Sum of the arguments |
| Core2.Evaluate | src2/core.ts:248-261 | evaluate as a method returns Evaluated(ast), inherited members included |
| Core2Laws.ParseShow | src2/core.ts:36-42 | parse(show(a)) = a for every showable tree: ints, raw rationals, strings, keywords, symbols, quotes and nested lists |
| Core2Laws.ReadsBack | src2/core.ts:44-124 | parse_one on a shown tree followed by a space, `)` or nothing gives the tree back, and the rest trims to what followed |
| Core2Laws.ListReadsBack | src2/core.ts:51-63 | the list loop over shown elements returns them in order, up to `)` |
| Core2Laws.QuoteReadsBack | src2/core.ts:90-94 | `'x` reads as the quote of x |
| Core2Laws.RationalReadsBack | src2/core.ts:100-110 | `p/q` reads as the rational with p and q exactly as written, not reduced |
| Core2Laws.StringReadsBack | src2/core.ts:66-81 | an escaped string between quotes reads back as itself |
| Core2Laws.KeywordReadsBack | src2/core.ts:84-88 | `:name` reads as the keyword of that name |
| Core2Laws.SymbolReadsBack | src2/core.ts:121-123 | a symbol name reads as the symbol of that name |
| Core2Laws.UnterminatedString | src2/core.ts:81 | a string whose closing quote never comes fails with 'missing closing quote of string', with or without a final backslash |
| Core2Laws.UnclosedList | src2/core.ts:45-60 | an unclosed `(` fails with 'empty input', because the loop reads an element from empty text |
| Core2Laws.TwoExpressions | src2/core.ts:38-40 | two expressions where one is expected: 'extra tokens' with the second one left over |
| Core2Laws.StrayClose | src2/core.ts:38-123 | a `)` where an expression is due reads as the empty symbol and consumes nothing, so parse fails with 'extra tokens' |
| Core2Laws.BadDenominator | src2/core.ts:100-108 | a `/` after an integer with no integer after it fails with 'expect second integer' |
| Core2Laws.SpaceBeforeSlash | src2/core.ts:99-100 | white space before the `/` is trimmed away, so "p /q" reads as p/q |
| Core2Laws.SpaceAfterSlash | src2/core.ts:101-109 | white space after the `/` is skipped by parseFloat but not by the slice, so the denominator's last character is left over |
| Core2Laws.FirstNonInt | src2/core.ts:225-234 | `+` fails at its first argument that is not an int, whatever comes after it |
| Core2Laws.SumAppend | src2/core.ts:224-235 | `+` over two runs of ints is the sum of their sums |
| Core2Laws.EvaluatesExactly | src2/core.ts:220-261 | a list evaluates exactly when its head's value is `+` and every argument is an int (the result is then the sum), or its head's value is `constructor` (the result is the list node) or `toString` (the result is "[object Undefined]"). Every other inherited name throws |
| Core2Laws.PlusKey | src2/core.ts:253-254 | a string, keyword or symbol head spelled `+` all name the one function |
| Core2Laws.EvalExamples | src2/eval.spec.ts:23-73 | (+ 2 3) = 5. (+ "app" "le") fails at "app". `concat` is undefined. `(toString)` returns "[object Undefined]", `(constructor 1)` returns the list itself, and `(valueOf)` throws |
| Parse3.BlankEnd | src3/parse.ts:37-54 | parse_whitespace stops past blanks only, at the first non-blank or the end, and never moves backwards |
| Parse3.DigitEnd | src3/parse.ts:68-82 | parse_integer's run is all digits, ends at a non-digit or the end, and never passes the input's length |
| Parse3.SymbolEnd | src3/parse.ts:127-148 | parse_symbol takes only characters other than blanks and `)`, and stops at the first of those or at the end |
| Parse3.StringLoop | src3/parse.ts:84-104 | the string loop never moves the offset backwards and ends at most one past the input's length |
| Parse3.NumberAt | src3/parse.ts:56-66 | parse_number consumes at least the first digit and stays within the input |
| Parse3.ParseAt | src3/parse.ts:6-35 | parse never moves the offset backwards, and ends at most one past the input's length |
| Parse3.ListBody | src3/parse.ts:106-125 | a list body that succeeds moves the offset past its closing character |
| Parse3.AfterElement | src3/parse.ts:117-122 | the step after an element, past blanks and an optional comma, never moves backwards and stays within the input when it moves |
| Parse3.ListBodyStep | src3/parse.ts:115-122 | one element step: the element is appended and the loop goes on after blanks and an optional comma |
| Parse3.Parser.constructor | src3/parse.ts:4 | a parser holds its input and starting offset |
| Parse3.Parser.Parse | src3/parse.ts:6-35 | Parser.parse returns ParseAt(input, old offset) and leaves the offset it reports |
| Parse3.Parser.ParseWhitespace | src3/parse.ts:37-54 | the offset moves to BlankEnd and the input is unchanged |
| Parse3.Parser.ParseNumber | src3/parse.ts:56-66 | parse_number returns NumberAt(input, old offset) |
| Parse3.Parser.ParseInteger | src3/parse.ts:68-82 | the offset moves to DigitEnd, and the node is the integer value of the digits passed (0 for none) |
| Parse3.Parser.ParseString | src3/parse.ts:84-104 | parse_string returns StringLoop from after the opening quote, with the opening character as the quote |
| Parse3.Parser.ParseListBody | src3/parse.ts:106-125 | parse_list_body returns ListBody(input, old offset, close, []) |
| Parse3.Parser.ParseSymbol | src3/parse.ts:127-148 | the offset moves to SymbolEnd, and the node is the symbol of the text passed |
| Parse3.Parse | src3/parse.ts:163-170 | the module function parse returns ParseText(input, offset) |
| Parse3Laws.BlankEndIsFirstNonBlank | src3/parse.ts:37-54 | parse_whitespace stops exactly at the first non-blank from the offset on, or at the end |
| Parse3Laws.DigitEndIsRunEnd | src3/parse.ts:68-82 | parse_integer stops exactly at the first non-digit from the offset on, or at the end |
| Parse3Laws.SymbolEndIsFirstStop | src3/parse.ts:127-148 | parse_symbol stops exactly at the first blank or `)` from the offset on, so `]` and `,` belong to a symbol |
| Parse3Laws.IntegerReadsDecimal | src3/parse.ts:68-82 | the decimal text of n, with no digit after it, is read as n and nothing more |
| Parse3Laws.FloatReadsDigits | src3/parse.ts:56-66 | digits t, a point and digits d are read as the float t + d as decimal places |
| Parse3Laws.NumberDispatch | src3/parse.ts:26-29 | parse on a digit is parse_number there |
| Parse3Laws.EscapePlain | src3/parse.ts:84-104 | text with neither the quote nor a backslash is its own escaped form |
| Parse3Laws.EscapeConcat | src3/parse.ts:84-104 | escaping distributes over concatenation |
| Parse3Laws.StringLoopReadsEscaped | src3/parse.ts:84-104 | the string loop reads an escaped text back up to the next unescaped quote and leaves the offset after it. With no closing quote the text runs to the end of the input, without error |
| Parse3Laws.EscapedCharacter | src3/parse.ts:95-100 | one escaped character is read back as itself and the loop goes on after it |
| Parse3Laws.BlankInputIsIncomplete | src3/parse.ts:6-35 | empty or blank input from the offset on fails with IncompleteInput at the end, naming no character |
| Parse3Laws.UnclosedListIsIncomplete | src3/parse.ts:106-125 | when no character from the loop's start onwards is `(`, `[`, `)` or the list's closing character, the list loop fails with IncompleteInput naming that character, or naming none when only blanks were left |
| Parse3Laws.ListBodyAppends | src3/parse.ts:108-116 | the list loop appends each element after the ones before it |
| Parse3Laws.PrintReadsBack | src3/parse.ts:163-170 | parse(print(a)) = a for every printable tree: natural integers, any string, symbols with a readable name, nested lists and arrays |
| Parse3Laws.PrintedReadsBack | src3/parse.ts:6-35 | a printed tree at offset i, followed by what may follow it, is read as that tree up to its end |
| Parse3Laws.ListElements | src3/parse.ts:106-125 | after the opener of a printed list or array, the list loop reads its elements in order up to its end |
| Parse3Laws.ItemsReadBack | src3/parse.ts:106-125 | elements written with separators are read back in order, up to the closing character |
| Parse3Laws.QuotedReadsBack | src3/parse.ts:84-104 | text escaped for either quote and put between that quote is read back as the text |
| Parse3Laws.SymbolAt | src3/parse.ts:127-148 | a readable symbol name is read whole |
| Parse3Examples.IntegerExample | src3/parse.test.ts:10-15 | "123" parses to the integer 123 |
| Parse3Examples.FloatExample | src3/parse.test.ts:17-22 | "12.34" parses to the float 12.34 |
| Parse3Examples.DoubleQuotedExample | src3/parse.test.ts:25-30 | "\"apple\"" parses to the string apple |
| Parse3Examples.SingleQuotedExample | src3/parse.test.ts:31-36 | "'apple'" parses to the string apple |
| Parse3Examples.EscapedDoubleQuotedExample | src3/parse.test.ts:37-41 | the double-quoted escaped text parses to apple's "app store" |
| Parse3Examples.EscapedSingleQuotedExample | src3/parse.test.ts:42-45 | the single-quoted escaped text parses to apple's "app store" |
| Parse3Examples.EmptyArrayExample | src3/parse.test.ts:50-55 | "[]" parses to the empty array |
| Parse3Examples.IntegerArrayExample | src3/parse.test.ts:56-64 | "[12,34]" parses to the array of 12 and 34 |
| Parse3Examples.StringArrayExample | src3/parse.test.ts:65-73 | "[\"apple\",\"pie\"]" parses to the array of the two strings |
| Parse3Examples.MathSymbolExamples | src3/parse.test.ts:92-98 | "+", "-", "*", "/" and "%" parse to the symbols of those names |
| Parse3Examples.DivisionKeywordExamples | src3/parse.test.ts:99-102 | "div", "rem" and "mod" parse to the symbols of those names |
| Parse3Examples.StepKeywordExamples | src3/parse.test.ts:103-104 | "inc" and "dec" parse to the symbols of those names |
| Parse3Examples.EmptyListExample | src3/parse.test.ts:109-114 | "()" parses to the empty list |
| Parse3Examples.SymbolListExample | src3/parse.test.ts:115-124 | "(+ 12 34)" parses to the list of +, 12 and 34 |
| Parse3Examples.EmptyInputExample | src3/parse.ts:6-35 | "" fails with IncompleteInput at 0 |
| Parse3Examples.TrailingBlankExample | src3/parse.ts:163-170 | "1 " fails with ExtraInput at offset 1, carrying the integer 1: trailing white space is extra input |
| Parse3Examples.SymbolSwallowsBracketExample | src3/parse.ts:106-148 | in "[a]" the symbol takes `a]`, so the array is incomplete at 3 and is missing `]` |
| Parse3Examples.TrailingBackslashExample | src3/parse.ts:95-97 | "\"a\\" reads the string "aundefined" and leaves the offset one past the end |
| Parse3Findings.LeadingZeroIsLost | src3/parse.ts:56-66 | as written, "1.05" reads as 1.5; the corrected reading is 1.05 |
| Parse3Findings.FractionsAgree | src3/parse.ts:58-63 | where the digits after the point have no leading zero, the as-written fraction and the decimal fraction agree |
| Parse3Findings.FractionAsWritten | src3/parse.ts:58-63 | the fraction as written, b over ten to the number of digits of String(b), is in [0, 1) |
| Parse3Findings.ParseAtAgrees | src3/parse.ts:6-35 | whatever parse returns within any fuel with its list loop as written, the corrected ParseAt returns too; with the fractions as written as well, ParseAt returns the same outcome except for float values |
| Parse3Findings.ListBodyAgrees | src3/parse.ts:106-125 | whatever the list loop as written returns within any fuel, with fractions read as decimals, the corrected ListBody returns too |
| Parse3Findings.ParseAtAsWritten | src3/parse.ts:6-35 | parse within a fuel bound, with the list loop as written and the fraction either as written (src3/parse.ts:62) or as decimals; it never produces the Stuck error that only the corrected loop has |
| Parse3Findings.FloatsOnlyDiffer | src3/parse.ts:56-66 | the fraction as written and the decimal fraction give runs of parse that differ only in float values: the same other nodes, offsets and errors, and the fuel runs out for both alike |
| Parse3Findings.ListFloatsOnlyDiffer | src3/parse.ts:106-125 | the same for the list loop, from element lists that differ only in float values |
| Parse3Findings.ParseAtReturns | src3/parse.ts:6-35 | every outcome of the corrected ParseAt other than Stuck is returned, for every fuel from some bound on, by parse with the list loop as written; parse as written throughout returns it except for float values |
| Parse3Findings.ListBodyReturns | src3/parse.ts:106-125 | every outcome of the corrected ListBody other than Stuck is returned by the list loop as written, with fractions read as decimals, for every fuel from some bound on |
| Parse3Findings.StuckExactlyWhenNeverReturns | src3/parse.ts:6-125 | parse as written returns for some fuel exactly when the corrected ParseAt does not report Stuck. Then both return the same outcome except for float values, and exactly the same once the fractions are read as decimals |
| Parse3Findings.NoProgressNeverReturns | src3/parse.ts:106-125 | where an element step leaves the offset where it was, the list loop as written (fractions read as decimals) never returns, whatever the fuel |
| Parse3Findings.UnclosedBracketNeverReturns | src3/parse.ts:106-148 | on "[)" parse as written runs out of every fuel; the corrected parse fails with Stuck(1) |
| Evaluate3.AddedIsSum | src3/evaluate.ts:47-66 | add returns an integer node holding the sum of all arguments when every one is an integer or float. Otherwise it fails with NotOverloaded, naming `+`, all the arguments and the index of the first non-number |
| Evaluate3.FirstNonNumber | src3/evaluate.ts:49-62 | the index add reports is that of a non-number, with only numbers before it |
| Evaluate3.Environment.constructor | src3/evaluate.ts:3-6 | a new environment has an empty table and the given parent, on a finite chain |
| Evaluate3.Environment.Root | src3/evaluate.ts:41-45 | a RootEnvironment has no parent and binds exactly `+` to add |
| Evaluate3.Environment.Lookup | src3/evaluate.ts:8-13 | get_fn fails only with FunctionNotDefined for the name asked |
| Evaluate3.Environment.LookupFindsBinding | src3/evaluate.ts:8-13 | get_fn succeeds exactly when some environment on the parent chain binds the name, and what it returns is one of those bindings |
| Evaluate3.Environment.EvalArgsElementwise | src3/evaluate.ts:29-32 | the arguments evaluate exactly when each one does, to their values in order. Otherwise the error is that of the first argument that fails |
| Evaluate3.Environment.GetFn | src3/evaluate.ts:8-13 | get_fn, recursing along the parent, returns Lookup(name) |
| Evaluate3.Environment.Evaluate | src3/evaluate.ts:15-20 | evaluate returns Eval(a): a list is applied, every other node is returned unchanged |
| Evaluate3.Environment.EvaluateList | src3/evaluate.ts:22-34 | evaluate_list returns EvalList(items): the empty list fails, the head's function is resolved before any argument, then the arguments are evaluated and the function applied |
| Evaluate3.Environment.EvaluateArguments | src3/evaluate.ts:29-32 | the loop fills the array of n − 1 values left to right. It returns the values EvalArgs gives, or the first failing argument's error |
| Evaluate3.Environment.ApplyHead | src3/evaluate.ts:27-33 | with the head's function found, the list evaluates to that function applied to the evaluated arguments, or to the first argument error |
| Evaluate3.Environment.GetHeadFn | src3/evaluate.ts:27-28 | the head's name is looked up as get_fn looks up `symbol.value` |
| Evaluate3.Environment.DefineFn | src3/evaluate.ts:36-38 | define_fn binds exactly one name, overwriting any earlier binding. Lookup of that name then gives the new function, and every other name's lookup and the parent are unchanged |
| Evaluate3.Environment.Add | src3/evaluate.ts:47-66 | add's loop returns Added(args) |
| Evaluate3Examples.EchoExamples | src3/evaluate.test.ts:12-22 | the integer 12, the float 12.34, the string apple and an array of 12 and 34 evaluate to themselves |
| Evaluate3Examples.AddsFromZero | src3/evaluate.ts:41-66 | in an environment binding `+` to add, (+ n1 … nk) over integers is add of those integers |
| Evaluate3Examples.AddExamples | src3/evaluate.test.ts:28-37 | (+) = 0, (+ 3) = 3, (+ 2 3) = 5, (+ 2 3 4) = 9 |
| Evaluate3Examples.RootAddsExample | src3/evaluate.test.ts:6-10 | a new RootEnvironment evaluates (+ 2 3) to 5 |
| Evaluate3Examples.ParsedAddExample | src3/evaluate.test.ts:24-34 | evaluating the parse of "(+ 2 3)" gives the parse of "5" |

## Left out

- The read-eval-print loops (src/repl.ts, src3/repl.ts, and `main`, `repl`, `read` and `print` of src2/core.ts) are I/O.
- Floating-point arithmetic and double rounding. Numbers are unbounded integers in the first two generations. In the third they are exact reals.
  - ReaderLaws and Core2Laws: decimal fractions, exponents and integers above 2^53 − 1 give an explicit `UnmodelledNumber` error rather than the node `parseFloat` would build.
  - src2's float nodes are not modelled.
- Numerals.ParseFloat: follows `parseFloat` only as far as an integer model can say exactly: a sign, a digit run, NaN and Infinity.
- Evaluate.Evaluate: requires the arguments to stay inside exact numbers. Its requires clause excludes these cases:
  - a keyword or a list reaching add, where `.down` is undefined and the result is NaN;
  - a non-number reaching `-`, `*` or `/`;
  - a zero divisor.
- Evaluate.DivideAll: uses exact real division where the source uses double division.
- Token.MakeRational: src/token.ts does not hold `rational`. Its contract is taken from src/token.spec.ts, and it requires a non-zero denominator. The reader turns into `UnmodelledNumber` every denominator that would break this: zero, and also NaN or Infinity from a denominator that is not an integer, as in "1/x", where src/reader.ts:98-99 calls `rational(up, NaN)`.
- `symbol` (`Symbol.for`) is a name-tagged atom, so two symbols are the same exactly when their names are.
- Error message text, `util.inspect` and the environment or parser object carried by the error classes are left out. Errors are tagged variants with the data that identifies the failure.
- Parse3Laws.PrintReadsBack: covers integers that are natural numbers, any string, readable symbols, and nested lists and arrays. It leaves out these trees:
  - floats, because the printer would need JavaScript's number-to-text conversion;
  - symbols directly inside arrays, because a symbol swallows the `,` and `]` after it;
  - the mixed-type array test `[12,3.4,"apple"]` of src3/parse.test.ts:74-83, which holds a float.
- Parse3.Parser.ParseListBody: carries a `Stuck` outcome that the source does not have. Where an element reads nothing (a `)` in an array, as in "[)"), the source loops forever. Parse3Findings.StuckExactlyWhenNeverReturns proves that Stuck marks exactly the inputs on which the code as written never returns.
- Parse3Findings.ParseAtAsWritten: the code as written is given a `fuel` bound because it need not terminate. `None` means the fuel ran out; the lemmas hold for every fuel. Its flag picks the fraction as written or the decimal fraction of Parse3.NumberAt. ParseAtAgrees, ListBodyAgrees, ListBodyReturns and NoProgressNeverReturns state the loop with decimal fractions. For the code as written throughout, ParseAtAgrees, ParseAtReturns and StuckExactlyWhenNeverReturns promise the same outcome only up to float values: their leading-zero fractions differ, as Parse3Findings.LeadingZeroIsLost shows.
- Parse3.Parser.ParseNumber: computes the corrected fraction, the digits after the point as decimal places. The source's reading, which loses their leading zeros, is Parse3Findings.NumberAtAsWritten (first row of "## Findings").
- Parse3Laws.UnclosedListIsIncomplete: covers only list bodies in which no `(`, `[`, `)` or closing character follows the opener. It says nothing about nested or mixed unclosed lists such as "[(1" or "((1", where the error comes from an inner list.
- Evaluate3.Fn: a function value is wrapped in a datatype so that the table can hold it. `fn.bind(this)` is left out, because `add` does not use its receiver except to put it into an error.
- Evaluate3.Environment.constructor: takes the parent as an argument. In the source it is a public field assigned after construction.
- Evaluate3.Environment.HeadFn: a head that is neither a symbol nor a string is looked up under a number or an array, which no table binds. The model reports that case as `NoFunctionFor` rather than FunctionNotDefined carrying the non-text name.
- Evaluate3.AddFrom: a sum is tagged integer even when floats were added, as in the source.
- Evaluate3Examples.EchoExamples: the array test at src3/evaluate.test.ts:21 holds raw numbers, which are not nodes of the tree type. The model states the case with integer nodes 12 and 34.
- The test-only behaviour of src/evaluate.spec.ts (math functions, comparisons, `and`/`or`, collections, `random`, nested arguments) and `concat` in src2/eval.spec.ts is implemented nowhere in the code, so it is not modelled.

## Findings

| source | as written | input that shows it | evidently intended | confidence | as-written member | corrected member |
|---|---|---|---|---|---|---|
| src3/parse.ts:56-66 | the float is built as `+(a + '.' + b)` where b is the integer value of the digits after the point, so their leading zeros are lost | "1.05" reads as 1.5 | the digits after the point are decimal places: 1.05 | not executed | Parse3Findings.LeadingZeroIsLost | Parse3.NumberAt |
| src3/parse.ts:106-125 | parse_list_body repeats an element step that consumed nothing; parse_symbol reads nothing at `)`, so inside `[` the loop never advances | "[)" never returns | the parser fails instead of looping | not executed | Parse3Findings.UnclosedBracketNeverReturns | Parse3.ListBody |
