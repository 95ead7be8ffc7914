# Verified models of five CSE 2231 components

This project is a Dafny model of the sequential core of five coursework components, each with proofs about it:

- **BL parser.** `Statement1Parse1` and `Program1Parse1` form a recursive-descent parser. It reads the token queue of a BL program from the front and builds a statement tree made of BLOCK, IF, IF_ELSE, WHILE and CALL nodes. It also builds a program: a name, a context of user-defined instructions, and a main body. Every grammar violation is a fatal error.
- **Set on a binary search tree.** `Set3a` keeps a set as a binary search tree of labels.
- **Natural number on a string.** `NaturalNumber3` keeps a natural number as its decimal digit string; zero is the empty string.
- **WordCounter.** It splits a text into maximal runs of word characters and of separators. From the runs it builds the set of words, the count of each word and a queue of the words.
- **TagCloud.** It counts the lower-cased words of a text line by line, then orders the entries by descending count. It keeps the first `size` entries, sorts them alphabetically and chooses a font size for each count.

## Structure

| file | module | models |
|---|---|---|
| wrappers.dfy | `Wrappers` | the `Result` type in which each fatal error becomes a value |
| ascii_text.dfy | `AsciiText` | `toUpperCase`, `toLowerCase` and `replace(char, char)` on ASCII text |
| bl_syntax.dfy | `BLSyntax` | the statement tree, program record, tokenizer predicates, error kinds, primitive names, and `Render`, the token string that spells a statement |
| statement_parser.dfy | `StatementParser` | the statement parser: functions saying what a token sequence parses to, and methods dequeuing from a shared `TokenQueue`, proved to agree with the functions |
| statement_grammar.dfy | `StatementGrammar` | completeness and soundness of the statement parser against `Render`, plus the error cases |
| program_parser.dfy | `ProgramParser` | the program parser: specification functions, `ParseInstruction`, and the `BLProgram` object that `Parse` fills in |
| program_grammar.dfy | `ProgramGrammar` | what the program parser accepts and rejects |
| set_on_bst.dfy | `SetOnBST` | the four recursive tree operations and the `BSTSet` class over them |
| natural_number.dfy | `NaturalNumberOnString` | the `NaturalNumber` class over its digit string |
| text_runs.dfy | `TextRuns` | runs, words, counting and first-seen order, shared by both text tools |
| string_order.dfy | `StringOrder` | Java's `String.compareTo` and the case-blind order built on it |
| word_counter.dfy | `WordCounter` | the WordCounter static methods |
| tag_cloud.dfy | `TagCloudSeparators`, `TagCloud` | the tag cloud's separator set, its counting loop, its two sorts and `fontSize` |

### Main design choices

**Tokenizer and error reporting**
- `Tokenizer.isIdentifier` and `Tokenizer.isCondition` are not part of this model. They arrive as the two functions of a `Lexicon` value.
- The only assumption about them is `ValidLexicon`: the end-of-input sentinel is neither an identifier nor a condition.
- Soundness of the statement parser also needs `LowerCaseConditions`: condition tokens are spelled with lower-case letters, digits and hyphens, as BL's conditions are. Completeness does not need it.
- `Reporter.assertElseFatalError` stops the program. Here it becomes a `Failure` carrying a `ParseError`.

**Conditions and queues**
- The `Condition` enum is not part of this model. A condition is kept as its normalised spelling, the name that `Condition.valueOf` receives.
- The OSU queue is the `TokenQueue` class. Its single field `items: seq<string>` is dequeued in place.

**Parser routines**
- Each parsing routine is a method on the shared queue. Its `ensures` says that the result and the remaining tokens are what a specification function (`StatementAt`, `IfAt`, `BlockAt`, `ProgramAt` and so on) gives for the old tokens.
- The grammar lemmas are stated about those functions. Completeness: parsing `Render(s) + rest` gives back `s` and `rest`. Soundness: the consumed tokens are exactly `Render` of the result.

**Text tools**
- The static methods that fill in a `Set`, `Map` or `Queue` passed to them are methods returning the new collection as a value.
- The TagCloud frequency bounds are static fields of the program. They are the two fields of the `TagCloudState` class.

## Model

| member | source | states |
|---|---|---|
| `AsciiText.ToUpper` | BLParser1/src/Statement1Parse1.java:37 | same length; each character is upper-cased (ASCII) |
| `AsciiText.ToLower` | TagCloudGenerator/TagCloudGenerator/src/TagCloud.java:106 | same length; each character is lower-cased (ASCII) |
| `AsciiText.Replace` | BLParser1/src/Statement1Parse1.java:37 | same length; each occurrence of `from` becomes `to` and every other character is kept |
| `BLSyntax.ConditionName` | BLParser1/src/Statement1Parse1.java:33-38 | the normalised name has the token's length; position by position it is the token with '-' turned into '_' and then upper-cased |
| `BLSyntax.SpellingOfConditionName` | BLParser1/src/Statement1Parse1.java:33-38 | on lower-case condition spellings, normalisation is undone by `Spelling`, so different tokens name different conditions |
| `BLSyntax.ConditionNameOfSpelling` | BLParser1/src/Statement1Parse1.java:33-38 | on canonical names, `Spelling` is undone by normalisation: the two maps are inverse |
| `BLSyntax.PrimitiveInstructions` | BLParser1/src/Program1Parse1.java:127-133 | exactly five names: move, turnleft, turnright, infect, skip |
| `BLSyntax.DropFront` | BLParser1/src/Statement1Parse1.java:250-251 | dequeuing a front token that is not the sentinel leaves a non-empty queue that still ends with the sentinel |
| `StatementParser.SuffixTransitive` | BLParser1/src/Statement1Parse1.java:54-57 | remaining tokens of remaining tokens are a suffix of the original queue |
| `StatementParser.StatementAt` | BLParser1/src/Statement1Parse1.java:222-245 | on success: at least one token is consumed, the rest is a suffix still ending with the sentinel, and the statement is not a BLOCK |
| `StatementParser.IfAt` | BLParser1/src/Statement1Parse1.java:61-115 | on success: tokens are consumed, the rest is a suffix ending with the sentinel, and the result is IF or IF_ELSE |
| `StatementParser.IfRest` | BLParser1/src/Statement1Parse1.java:89-114 | after the then-part: on success it consumes tokens and yields IF or IF_ELSE |
| `StatementParser.WhileAt` | BLParser1/src/Statement1Parse1.java:138-176 | on success: tokens are consumed, the rest is a suffix ending with the sentinel, and the result is a WHILE |
| `StatementParser.CloseWith` | BLParser1/src/Statement1Parse1.java:107-114 | on success the construct is returned unchanged and `END closer` is consumed |
| `StatementParser.CallAt` | BLParser1/src/Statement1Parse1.java:194-204 | always succeeds with `Call(front token)` and consumes exactly that one token |
| `StatementParser.BlockAt` | BLParser1/src/Statement1Parse1.java:248-265 | on success the result is a BLOCK and the remaining queue starts with END, ELSE or the sentinel, which is not consumed |
| `StatementParser.BlockFrom` | BLParser1/src/Statement1Parse1.java:260-264 | the block loop: stops at a terminator, which is left in place; the children parsed so far stay a prefix of the result, in order |
| `StatementParser.Parse` | BLParser1/src/Statement1Parse1.java:222-245 | the dequeuing parser yields what `StatementAt` gives for the old queue and leaves the queue at its remaining tokens; on an error it returns that error |
| `StatementParser.TokenQueue.Front` | BLParser1/src/Statement1Parse1.java:90 | `front()` on a non-empty queue returns its first token and changes nothing |
| `StatementParser.TokenQueue.Dequeue` | BLParser1/src/Statement1Parse1.java:68 | `dequeue()` on a non-empty queue returns its first token and leaves the rest, in order |
| `StatementParser.ParseIf` | BLParser1/src/Statement1Parse1.java:61-115 | agrees with `IfAt` on the old queue: result, error and remaining tokens |
| `StatementParser.ParseWhile` | BLParser1/src/Statement1Parse1.java:138-176 | agrees with `WhileAt` on the old queue |
| `StatementParser.Close` | BLParser1/src/Statement1Parse1.java:107-114 | agrees with `CloseWith`: dequeues END and the closing word, which must equal the expected one |
| `StatementParser.ParseCall` | BLParser1/src/Statement1Parse1.java:194-204 | agrees with `CallAt`: one token dequeued, a CALL of it |
| `StatementParser.ParseBlock` | BLParser1/src/Statement1Parse1.java:248-265 | agrees with `BlockAt`: the loop parses statements until a terminator and does not consume the terminator |
| `StatementGrammar.StatementAtRender` | BLParser1/src/Statement1Parse1.java:222-245 | completeness: every well-formed non-block statement is parsed back from its own tokens, whatever follows, and exactly those tokens are consumed |
| `StatementGrammar.IfRender` | BLParser1/src/Statement1Parse1.java:61-115 | `IF c THEN B END IF rest` parses to `If(c, B)` with `rest` left |
| `StatementGrammar.IfElseRender` | BLParser1/src/Statement1Parse1.java:61-115 | `IF c THEN B1 ELSE B2 END IF rest` parses to `IfElse(c, B1, B2)` with `rest` left |
| `StatementGrammar.IfAtElse` | BLParser1/src/Statement1Parse1.java:89-101 | when ELSE follows the then-part, the result is the IF_ELSE closed by `END IF` |
| `StatementGrammar.IfAtNoElse` | BLParser1/src/Statement1Parse1.java:102-105 | when ELSE does not follow, the result is the IF closed by `END IF` |
| `StatementGrammar.WhileRender` | BLParser1/src/Statement1Parse1.java:138-176 | `WHILE c DO B END WHILE rest` parses to `While(c, B)` with `rest` left |
| `StatementGrammar.WhileAtParts` | BLParser1/src/Statement1Parse1.java:163-175 | WHILE parsing in terms of its body block, closed by `END WHILE` |
| `StatementGrammar.BlockAtRender` | BLParser1/src/Statement1Parse1.java:248-265 | every well-formed block is parsed back from its tokens when a terminator follows, children in order |
| `StatementGrammar.BlockFromRender` | BLParser1/src/Statement1Parse1.java:260-264 | after children `acc`, the loop parses the rendered statements `ss` into `acc + ss` and stops at the terminator |
| `StatementGrammar.FirstChild` | BLParser1/src/Statement1Parse1.java:260-262 | the first child of a well-formed block is well formed and does not start with a terminator, and the other children form a well-formed block |
| `StatementGrammar.ChildParsed` | BLParser1/src/Statement1Parse1.java:260-264 | a rendered child in front of the loop's input is parsed first, then the loop continues |
| `StatementGrammar.BlockFromNext` | BLParser1/src/Statement1Parse1.java:260-264 | one loop turn: a statement is parsed where no terminator stands, and the loop continues after it |
| `StatementGrammar.StatementAtSound` | BLParser1/src/Statement1Parse1.java:222-245 | soundness: a parsed statement is well formed, and the old tokens are its rendering followed by the remaining tokens |
| `StatementGrammar.IfAtSound` | BLParser1/src/Statement1Parse1.java:61-115 | a parsed IF/IF_ELSE is well formed, and the old tokens are its rendering followed by the rest |
| `StatementGrammar.IfAtFront` | BLParser1/src/Statement1Parse1.java:68-87 | a successful IF read `IF`, a condition and `THEN`, then a block |
| `StatementGrammar.IfAtElseFront` | BLParser1/src/Statement1Parse1.java:90-96 | a successful IF_ELSE read a block after ELSE |
| `StatementGrammar.IfElseCloseSound` | BLParser1/src/Statement1Parse1.java:90-114 | a closed IF_ELSE is well formed and spelled by the consumed tokens |
| `StatementGrammar.IfCloseSound` | BLParser1/src/Statement1Parse1.java:102-114 | a closed IF is well formed and spelled by the consumed tokens |
| `StatementGrammar.CloseWithSound` | BLParser1/src/Statement1Parse1.java:107-114 | a successful close consumed exactly `END closer` |
| `StatementGrammar.WhileAtSound` | BLParser1/src/Statement1Parse1.java:138-176 | a parsed WHILE is well formed and spelled by the consumed tokens |
| `StatementGrammar.WhileAtFront` | BLParser1/src/Statement1Parse1.java:145-164 | a successful WHILE read `WHILE`, a condition and `DO`, then a block |
| `StatementGrammar.WhileCloseSound` | BLParser1/src/Statement1Parse1.java:167-175 | a closed WHILE is well formed and spelled by the consumed tokens |
| `StatementGrammar.BlockAtSound` | BLParser1/src/Statement1Parse1.java:248-265 | a parsed block is well formed and spelled by the consumed tokens |
| `StatementGrammar.BlockFromSound` | BLParser1/src/Statement1Parse1.java:260-264 | the children the loop adds are well formed and spell exactly the tokens it consumed |
| `StatementGrammar.BlockFromConcat` | BLParser1/src/Statement1Parse1.java:260-264 | one child's tokens followed by the later children's tokens spell the loop's input |
| `StatementGrammar.BlockFromStep` | BLParser1/src/Statement1Parse1.java:260-264 | a successful loop turn parsed a statement and went on after it |
| `StatementGrammar.AppendWellFormed` | BLParser1/src/Statement1Parse1.java:262-263 | a statement parsed inside a block may be added to the block's children |
| `StatementGrammar.RenderAllFrom` | BLParser1/src/Statement1Parse1.java:260-264 | the rendering of children from `k` on is child `k`'s rendering followed by the rest |
| `StatementGrammar.StatementAtCall` | BLParser1/src/Statement1Parse1.java:232-243 | a front token other than IF and WHILE parses exactly when it is a call name, consuming one token; a condition is rejected as IsACondition and a non-identifier as NotACall |
| `StatementGrammar.BlockAtTerminator` | BLParser1/src/Statement1Parse1.java:260 | a block that starts at a terminator is empty and consumes nothing |
| `StatementGrammar.IfWrongCloser` | BLParser1/src/Statement1Parse1.java:112-114 | an IF closed by any word other than IF is rejected |
| `StatementGrammar.WhileWrongCloser` | BLParser1/src/Statement1Parse1.java:172-174 | a WHILE closed by any word other than WHILE is rejected |
| `StatementGrammar.IfWithOneCall` | BLParser1/src/Statement1Parse1.java:61-115 | `IF c THEN x END IF` parses to an IF whose block holds the one call |
| `ProgramParser.InstructionAt` | BLParser1/src/Program1Parse1.java:56-96 | on success: tokens are consumed, the rest ends with the sentinel, the name is an identifier and the body is a BLOCK |
| `ProgramParser.InstructionEnd` | BLParser1/src/Program1Parse1.java:82-93 | on success the instruction is the one opened, and `END name` is consumed |
| `ProgramParser.InstructionsFrom` | BLParser1/src/Program1Parse1.java:172-183 | the loop stops at a front token other than INSTRUCTION and only adds to the context |
| `ProgramParser.ProgramAt` | BLParser1/src/Program1Parse1.java:122-216 | on success: only the sentinel remains; the name is an identifier and not primitive; the body is a BLOCK |
| `ProgramParser.ProgramBodyAt` | BLParser1/src/Program1Parse1.java:189-212 | on success the program has the given name and context, and only the sentinel remains |
| `ProgramParser.ParseInstruction` | BLParser1/src/Program1Parse1.java:56-96 | the dequeuing method agrees with `InstructionAt` on the old queue: instruction, error and remaining tokens |
| `ProgramParser.BLProgram.constructor` | BLParser1/src/Program1Parse1.java:105-107 | a new program has an empty context and an empty body |
| `ProgramParser.BLProgram.Parse` | BLParser1/src/Program1Parse1.java:122-216 | on success the object's name, context and body are those of `ProgramAt` on the old queue, and the queue holds its remaining tokens; otherwise it returns `ProgramAt`'s error |
| `ProgramParser.BLProgram.ParseBody` | BLParser1/src/Program1Parse1.java:189-215 | agrees with `ProgramBodyAt`; the name and context are unchanged and the body is set |
| `ProgramGrammar.SentinelAfter` | BLParser1/src/Program1Parse1.java:122-125 | tokens in front of a sentinel-terminated queue keep it sentinel-terminated |
| `ProgramGrammar.AddAllContents` | BLParser1/src/Program1Parse1.java:172-183 | adding distinct fresh instructions gives one entry per instruction, binding each name to its body, and keeps the old entries |
| `ProgramGrammar.InstructionAtParts` | BLParser1/src/Program1Parse1.java:64-93 | instruction parsing in terms of its body block |
| `ProgramGrammar.InstructionAtRender` | BLParser1/src/Program1Parse1.java:56-96 | `INSTRUCTION x IS B END x` is parsed back to the instruction, whatever follows |
| `ProgramGrammar.InstructionsFromPrefix` | BLParser1/src/Program1Parse1.java:172-183 | reading valid instruction definitions equals starting the loop with them already added to the context |
| `ProgramGrammar.ValidInstructionsTail` | BLParser1/src/Program1Parse1.java:175-182 | after the first definition is added, the remaining definitions are still fresh and valid |
| `ProgramGrammar.InstructionsTokensCons` | BLParser1/src/Program1Parse1.java:172-183 | the definitions' tokens are the first definition's tokens followed by the rest |
| `ProgramGrammar.InstructionsFromStep` | BLParser1/src/Program1Parse1.java:172-183 | one loop turn on a fresh, non-primitive name adds exactly `name -> body` |
| `ProgramGrammar.ProgramAtParts` | BLParser1/src/Program1Parse1.java:136-186 | program parsing in terms of the instruction loop |
| `ProgramGrammar.ProgramBodyAtParts` | BLParser1/src/Program1Parse1.java:189-212 | after the main block: wrong end name, trailing terms and success, each as its own case |
| `ProgramGrammar.ProgramBodyRender` | BLParser1/src/Program1Parse1.java:189-212 | `BEGIN B END w rest`: rejected when `w` is not the name; TermsRemain when anything but the sentinel follows; otherwise the program |
| `ProgramGrammar.ProgramAtRender` | BLParser1/src/Program1Parse1.java:122-216 | completeness: a valid program text parses to its name, body and a context holding exactly one entry per definition |
| `ProgramGrammar.ProgramTokensSplit` | BLParser1/src/Program1Parse1.java:136-207 | how the tokens of a program text fall into its parts |
| `ProgramGrammar.ProgramTermsRemain` | BLParser1/src/Program1Parse1.java:209-212 | any token other than the sentinel after `END n` is rejected as TermsRemain |
| `ProgramGrammar.ProgramWrongEndName` | BLParser1/src/Program1Parse1.java:203-207 | a program closed by a name other than its own is rejected |
| `ProgramGrammar.ProgramDuplicateInstruction` | BLParser1/src/Program1Parse1.java:175-177 | a definition reusing an earlier instruction name is rejected |
| `ProgramGrammar.InstructionPrimitiveName` | BLParser1/src/Program1Parse1.java:178-181 | a definition with a primitive name is rejected |
| `ProgramGrammar.ProgramPrimitiveName` | BLParser1/src/Program1Parse1.java:144-146 | a program named like a primitive instruction is rejected |
| `ProgramGrammar.InstructionNamedLikeProgram` | BLParser1/src/Program1Parse1.java:175-181 | an instruction may share the program's name; the namespace check never consults it |
| `ProgramGrammar.OneEmptyInstructionTokens` | BLParser1/src/Program1Parse1.java:136-212 | the token spelling of the smallest program with one instruction |
| `ProgramGrammar.ExtendsTransitive` | BLParser1/src/Program1Parse1.java:172-183 | context extension is transitive |
| `ProgramGrammar.InstructionsFromSound` | BLParser1/src/Program1Parse1.java:172-183 | the loop keeps earlier entries and adds only well-formed, non-primitive, identifier-named entries |
| `ProgramGrammar.InstructionsFromNext` | BLParser1/src/Program1Parse1.java:172-182 | a successful loop turn read an instruction whose name is fresh and not primitive |
| `ProgramGrammar.ExtendsByOne` | BLParser1/src/Program1Parse1.java:182 | adding one fresh valid entry extends the context |
| `ProgramGrammar.InstructionAtSound` | BLParser1/src/Program1Parse1.java:56-96 | the body of a parsed instruction is a well-formed block, and the tokens consumed are exactly `INSTRUCTION x IS`, the rendered body, `END x` |
| `ProgramGrammar.InstructionsFromTokens` | BLParser1/src/Program1Parse1.java:172-183 | a successful instruction loop read definitions that are valid after the starting context, spelled by exactly the tokens it consumed, and the context it returns is the starting one with them added in order |
| `ProgramGrammar.ProgramAtSound` | BLParser1/src/Program1Parse1.java:122-216 | soundness: a parsed program has an identifier, non-primitive name (the second token), a context of well-formed blocks with fresh non-primitive names, and a well-formed main block; and there are valid definitions `ds`, one per context entry, whose context is the one parsed, such that the tokens consumed are exactly the program rendered with `ds` |
| `ProgramGrammar.ProgramAtFront` | BLParser1/src/Program1Parse1.java:136-159 | a successful parse read `PROGRAM n IS`, with `n` an identifier that is not primitive |
| `ProgramGrammar.ProgramBodyAtSound` | BLParser1/src/Program1Parse1.java:188-208 | the main body of a parsed program is well formed, and the tokens consumed are exactly `BEGIN`, the rendered body, `END n` |
| `SetOnBST.SizeIsCardinality` | SetOnBST/src/Set3a.java:300-303 | the node count of a search tree is the number of its distinct labels |
| `SetOnBST.IsInTree` | SetOnBST/src/Set3a.java:52-78 | true exactly when `x` is a label of the tree |
| `SetOnBST.InsertInTree` | SetOnBST/src/Set3a.java:94-118 | for an absent `x`: a search tree with the old labels plus `x`, one node larger |
| `SetOnBST.RemoveSmallest` | SetOnBST/src/Set3a.java:135-156 | for a non-empty tree: returns the least label, and leaves a search tree without it and one node smaller |
| `SetOnBST.RemoveFromTree` | SetOnBST/src/Set3a.java:176-209 | for a present `x`: returns `x`, and leaves a search tree without it and one node smaller |
| `SetOnBST.BSTSet.constructor` | SetOnBST/src/Set3a.java:225-227 | a new set is empty |
| `SetOnBST.BSTSet.Clear` | SetOnBST/src/Set3a.java:245-247 | the set becomes empty |
| `SetOnBST.BSTSet.TransferFrom` | SetOnBST/src/Set3a.java:250-263 | this takes the source's elements, and the source becomes empty |
| `SetOnBST.BSTSet.Add` | SetOnBST/src/Set3a.java:270-275 | for an absent `x`, the elements gain `x` |
| `SetOnBST.BSTSet.Remove` | SetOnBST/src/Set3a.java:278-283 | for a present `x`, returns `x` and the elements lose it |
| `SetOnBST.BSTSet.RemoveAny` | SetOnBST/src/Set3a.java:286-290 | for a non-empty set, returns its least element and removes only that element |
| `SetOnBST.BSTSet.Contains` | SetOnBST/src/Set3a.java:293-297 | membership, without changing the set |
| `SetOnBST.BSTSet.Size` | SetOnBST/src/Set3a.java:300-303 | the number of elements, without changing the set |
| `NaturalNumberOnString.DigitChar` | NaturalNumberOnString/src/NaturalNumber3.java:134 | `String.valueOf(k)` for one digit: a digit character that is '0' exactly for 0 |
| `NaturalNumberOnString.DecimalValue` | NaturalNumberOnString/src/NaturalNumber3.java:12-15 | the correspondence: the value of a digit string, 0 exactly when every digit is '0' (so also for the empty string), whose last digit is the value's remainder modulo 10 |
| `NaturalNumberOnString.DecimalString` | NaturalNumberOnString/src/NaturalNumber3.java:57 | `String.valueOf(i)`: a numeral whose value is `i`, starting with '0' exactly when `i` is 0 |
| `NaturalNumberOnString.LeadingDigitPositive` | NaturalNumberOnString/src/NaturalNumber3.java:8-15 | under the convention, a non-empty representation stands for a positive number |
| `NaturalNumberOnString.DecimalStringOfValue` | NaturalNumberOnString/src/NaturalNumber3.java:66-73 | every numeral is the decimal string of its value, so the depiction is one-to-one |
| `NaturalNumberOnString.DropLastDigit` | NaturalNumberOnString/src/NaturalNumber3.java:152-154 | dropping the last digit keeps the convention |
| `NaturalNumberOnString.MultiplyBy10AsWritten` | NaturalNumberOnString/src/NaturalNumber3.java:130-138 | multiplyBy10 as written: the result is always the representation with the digit `k` appended; from a representation meeting the convention it meets the convention exactly unless the representation is empty and `k` is 0 |
| `NaturalNumberOnString.MultiplyZeroByTenAsWritten` | NaturalNumberOnString/src/NaturalNumber3.java:134-137 | on zero with `k` = 0 the written code stores "0": the convention breaks and the value is zero though the string is not empty |
| `NaturalNumberOnString.NaturalNumber.constructor` | NaturalNumberOnString/src/NaturalNumber3.java:45-47 | the new number is zero, kept under the convention |
| `NaturalNumberOnString.NaturalNumber.FromInt` | NaturalNumberOnString/src/NaturalNumber3.java:55-59 | for a non-negative 32-bit `i`, the number is `i`, kept under the convention (0 as the empty string) |
| `NaturalNumberOnString.NaturalNumber.FromString` | NaturalNumberOnString/src/NaturalNumber3.java:66-73 | for a numeral `s`, the number is the one `s` depicts, kept under the convention |
| `NaturalNumberOnString.NaturalNumber.Clear` | NaturalNumberOnString/src/NaturalNumber3.java:101-104 | the number becomes zero |
| `NaturalNumberOnString.NaturalNumber.TransferFrom` | NaturalNumberOnString/src/NaturalNumber3.java:106-119 | this takes the source's value, and the source becomes zero |
| `NaturalNumberOnString.NaturalNumber.ClearZero` | NaturalNumberOnString/src/NaturalNumber3.java:174-178 | "0" becomes the empty string and any other representation is kept; on a numeral the convention then holds and the value is unchanged |
| `NaturalNumberOnString.NaturalNumber.MultiplyBy10` | NaturalNumberOnString/src/NaturalNumber3.java:130-138 | for `k` < 10, the value becomes 10 times the old value plus `k`, under the convention (the corrected form) |
| `NaturalNumberOnString.NaturalNumber.DivideBy10` | NaturalNumberOnString/src/NaturalNumber3.java:147-160 | returns a digit `d` with old value = 10 * new value + `d`, keeping the convention; zero stays zero and gives 0 |
| `NaturalNumberOnString.NaturalNumber.IsZero` | NaturalNumberOnString/src/NaturalNumber3.java:165-168 | true exactly when the value is 0 |
| `StringOrder.CompareToFirstDifference` | WordCounter/src/WordCounter.java:35 | `compareTo`: the length difference when one string is a prefix of the other, otherwise the difference of the characters at the first index where they differ |
| `StringOrder.CompareIgnoringCase` | TagCloudGenerator/TagCloudGenerator/src/TagCloud.java:262-263 | comparing lower-cased keys: 0 exactly when the lower-cased strings are equal, and swapping the arguments negates the result |
| `StringOrder.CompareToAntisymmetric` | WordCounter/src/WordCounter.java:34-36 | swapping the arguments of `compareTo` negates the result |
| `StringOrder.CompareToZero` | WordCounter/src/WordCounter.java:34-36 | `compareTo` is 0 exactly on equal strings |
| `StringOrder.CompareToTransitive` | WordCounter/src/WordCounter.java:34-36 | "less than" by `compareTo` is transitive |
| `StringOrder.AtMostTransitive` | TagCloudGenerator/TagCloudGenerator/src/TagCloud.java:261-266 | the case-blind "at most" is transitive |
| `StringOrder.BeforeTransitive` | TagCloudGenerator/TagCloudGenerator/src/TagCloud.java:261-266 | strictly before, then at most, gives strictly before |
| `StringOrder.AtMostTotal` | TagCloudGenerator/TagCloudGenerator/src/TagCloud.java:261-266 | any two keys are ordered one way or the other |
| `TextRuns.RunEnd` | WordCounter/src/WordCounter.java:106-128 | the end of the run at `pos`: after `pos`, every character in between has `pos`'s kind, and the character at the end (if any) has the other kind |
| `TextRuns.ScannedRun` | WordCounter/src/WordCounter.java:106-128 | a scan that stops at the text's end or at the first character of the other kind yields the maximal run |
| `TextRuns.MaximalRunIsUnique` | WordCounter/src/WordCounter.java:78-93 | the nextWordOrSeparator contract holds of exactly one string, the run up to `RunEnd` |
| `TextRuns.RunInside` | WordCounter/src/WordCounter.java:82-93 | a character inside a run has the kind of the run's first character |
| `TextRuns.RunKind` | WordCounter/src/WordCounter.java:82-93 | a position before `RunEnd` has the kind of the run's start |
| `TextRuns.WordInside` | WordCounter/src/WordCounter.java:160-199 | a word holds no separator |
| `TextRuns.WordsFromCharacterised` | WordCounter/src/WordCounter.java:177-199 | the words listed from a run boundary are exactly the maximal separator-free stretches at or after it |
| `TextRuns.WordsCharacterised` | WordCounter/src/WordCounter.java:160-199 | the words of a text are exactly its maximal separator-free stretches |
| `TextRuns.WordsAreSeparatorFree` | WordCounter/src/WordCounter.java:229-280 | no listed word is empty or holds a separator, so separator runs are never keys |
| `TextRuns.TallyIntoKeys` | WordCounter/src/WordCounter.java:256-279 | counting words into a map keeps its keys and adds the words |
| `TextRuns.TallyIntoCounts` | WordCounter/src/WordCounter.java:256-279 | each count grows by the number of occurrences of its word |
| `TextRuns.TallyCounts` | WordCounter/src/WordCounter.java:229-280 | counting from the empty map: the keys are the words, and each count is the word's number of occurrences, at least 1 |
| `TextRuns.FirstIndex` | TagCloudGenerator/TagCloudGenerator/src/TagCloud.java:148-153 | the index of an element's first occurrence: it holds the element and no earlier position does |
| `TextRuns.FirstSeenExtends` | TagCloudGenerator/TagCloudGenerator/src/TagCloud.java:148-153 | listing new words only appends |
| `TextRuns.FirstSeenDistinct` | TagCloudGenerator/TagCloudGenerator/src/TagCloud.java:148-153 | the list stays free of repeats |
| `TextRuns.FirstSeenElems` | TagCloudGenerator/TagCloudGenerator/src/TagCloud.java:148-153 | the list holds exactly the old entries and the words seen |
| `TextRuns.FirstSeenContents` | TagCloudGenerator/TagCloudGenerator/src/TagCloud.java:144-158 | the list extends the old one, is free of repeats, and lists every word seen |
| `TextRuns.FirstSeenOrder` | TagCloudGenerator/TagCloudGenerator/src/TagCloud.java:144-158 | added words stand in the order of their first occurrences |
| `WordCounter.StringLTCompare` | WordCounter/src/WordCounter.java:32-37 | 0 exactly when the lower-cased strings are equal, and the negation of the comparison with the arguments swapped |
| `WordCounter.GenerateElements` | WordCounter/src/WordCounter.java:51-61 | the set becomes the old set together with every character of `str` (nothing is removed) |
| `WordCounter.NextWordOrSeparator` | WordCounter/src/WordCounter.java:95-130 | the result is the maximal run of one kind starting at `position` |
| `WordCounter.MakeWordSet` | WordCounter/src/WordCounter.java:177-199 | exactly the set of the text's words, its maximal separator-free stretches |
| `WordCounter.MakeWordMap` | WordCounter/src/WordCounter.java:248-280 | maps each word to its number of occurrences; the keys are exactly the words of `MakeWordSet`, and every count is at least 1 |
| `WordCounter.MakeWordQueue` | WordCounter/src/WordCounter.java:212-227 | every element of the set, each exactly once; the length is the set's size |
| `TagCloudSeparators.SeparatorGetter` | TagCloudGenerator/TagCloudGenerator/src/TagCloud.java:174-196 | exactly the eighteen separator characters |
| `TagCloudSeparators.TagSeparatorsNoLetters` | TagCloudGenerator/TagCloudGenerator/src/TagCloud.java:174-196 | no separator is a letter |
| `TagCloud.LowerKeepsKind` | TagCloudGenerator/TagCloudGenerator/src/TagCloud.java:106 | lower-casing keeps whether a character is a separator, when no letter is one |
| `TagCloud.NextWordOrSeparator` | TagCloudGenerator/TagCloudGenerator/src/TagCloud.java:66-107 | a non-empty result: the maximal run at `position`, lower-cased |
| `TagCloud.LowerAll` | TagCloudGenerator/TagCloudGenerator/src/TagCloud.java:106 | each word lower-cased, in order |
| `TagCloud.LineStep` | TagCloudGenerator/TagCloudGenerator/src/TagCloud.java:144-158 | a word run contributes its lower-cased form in front of the rest of the line; a separator run contributes nothing |
| `TagCloud.GatherStep` | TagCloudGenerator/TagCloudGenerator/src/TagCloud.java:148-157 | counting and listing one more word: count it, and list it if it is new |
| `TagCloud.RunStep` | TagCloudGenerator/TagCloudGenerator/src/TagCloud.java:144-158 | one pass of the counting loop, with the map and list updated as the code does, leaves the same result to be gathered from the rest of the line |
| `TagCloud.WordRunStep` | TagCloudGenerator/TagCloudGenerator/src/TagCloud.java:148-157 | a word run is counted and listed in front of the rest of the line |
| `TagCloud.SeparatorRunStep` | TagCloudGenerator/TagCloudGenerator/src/TagCloud.java:147 | a separator run contributes no word |
| `TagCloud.GatherAppend` | TagCloudGenerator/TagCloudGenerator/src/TagCloud.java:135-160 | gathering line after line equals gathering the concatenated words |
| `TagCloud.AllWordsFrom` | TagCloudGenerator/TagCloudGenerator/src/TagCloud.java:135-160 | the words from line `k` on are line `k`'s words followed by the later lines' words |
| `TagCloud.CountRun` | TagCloudGenerator/TagCloudGenerator/src/TagCloud.java:144-158 | one pass of the counting loop: it advances, keeps map and list consistent, and leaves the same final count and list to be gathered |
| `TagCloud.CountLine` | TagCloudGenerator/TagCloudGenerator/src/TagCloud.java:144-158 | the per-line loop: counts the line's lower-cased words into the map and appends the new ones in first-seen order |
| `TagCloud.WordsAndCountsGetter` | TagCloudGenerator/TagCloudGenerator/src/TagCloud.java:130-165 | the map holds the number of occurrences of each lower-cased word of all lines, and `words` lists the distinct words in first-seen order |
| `TagCloud.AllWordsSeparatorFree` | TagCloudGenerator/TagCloudGenerator/src/TagCloud.java:144-158 | every counted word is non-empty and holds no separator |
| `TagCloud.MaxEntry` | TagCloudGenerator/TagCloudGenerator/src/TagCloud.java:219-226 | an entry of the map whose count is at least every other count |
| `TagCloud.DescendingSort` | TagCloudGenerator/TagCloudGenerator/src/TagCloud.java:210-233 | lists every entry of the map exactly once, with its count, in non-increasing count order |
| `TagCloud.DescendingStep` | TagCloudGenerator/TagCloudGenerator/src/TagCloud.java:228-231 | moving an entry of the largest remaining count to the end keeps the loop invariant |
| `TagCloud.RemoveFirst` | TagCloudGenerator/TagCloudGenerator/src/TagCloud.java:283 | `remove(Object)` cuts out the element at its first occurrence when it is present, keeping the rest in order, and leaves the list unchanged when it is absent; either way exactly one occurrence fewer |
| `TagCloud.SelectKeepsSentinel` | TagCloudGenerator/TagCloudGenerator/src/TagCloud.java:259-266 | when no kept key comes before "zzz" once lower-cased, the written scan selects the sentinel |
| `TagCloud.AlphabeticalSortStalls` | TagCloudGenerator/TagCloudGenerator/src/TagCloud.java:259-283 | in that case a pass of the written loop removes nothing and appends the sentinel, so the loop never ends |
| `TagCloud.ZzzStalls` | TagCloudGenerator/TagCloudGenerator/src/TagCloud.java:259-283 | the kept entry ("zzz", 2) already stalls the written loop |
| `TagCloud.FirstAlphabetically` | TagCloudGenerator/TagCloudGenerator/src/TagCloud.java:261-266 | the index of the first entry whose lower-cased key is smallest |
| `TagCloud.SelectAsWritten` | TagCloudGenerator/TagCloudGenerator/src/TagCloud.java:259-266 | the scan as written ends on its starting entry or an entry of the list, at most the starting entry and every entry of the list in the case-blind order |
| `TagCloud.AlphabeticalStepAsWritten` | TagCloudGenerator/TagCloudGenerator/src/TagCloud.java:259-283 | one pass as written appends the selected entry (the sentinel or a listed entry) to the output and removes one occurrence of it; the list shrinks exactly when the selected entry is in it |
| `TagCloud.SelectAsWrittenFindsFirstLeast` | TagCloudGenerator/TagCloudGenerator/src/TagCloud.java:259-266 | when every key comes before "zzz" once lower-cased, the written scan from the sentinel selects exactly the first entry whose lower-cased key is smallest, the entry the corrected scan picks |
| `TagCloud.WidenedStep` | TagCloudGenerator/TagCloudGenerator/src/TagCloud.java:272-277 | taking one more count into the frequency bounds keeps them covering every count taken |
| `TagCloud.SelectStep` | TagCloudGenerator/TagCloudGenerator/src/TagCloud.java:282-283 | moving a smallest entry to the output keeps the output sorted and before the rest, and loses no entry |
| `TagCloud.TagCloudState.constructor` | TagCloudGenerator/TagCloudGenerator/src/TagCloud.java:39-45 | the bounds start at `Integer.MAX_VALUE` and `Integer.MIN_VALUE` |
| `TagCloud.TagCloudState.AlphabeticalSort` | TagCloudGenerator/TagCloudGenerator/src/TagCloud.java:244-291 | a permutation of the first `size` entries, sorted by lower-cased key; the bounds only widen, cover every kept count, and any bound that moved is a kept count |
| `TagCloud.TagCloudState.FontSize` | TagCloudGenerator/TagCloudGenerator/src/TagCloud.java:354-369 | a font between 11 and 48, and 11 at the lowest frequency; the `int` sum at line 362 wraps as in Java before the clamp |
| `TagCloud.WrapInt` | TagCloudGenerator/TagCloudGenerator/src/TagCloud.java:362 | Java's `int` result: inside the 32-bit range, congruent to the mathematical result modulo 2^32, and equal to it when it already fits |
| `TagCloud.SumFits` | TagCloudGenerator/TagCloudGenerator/src/TagCloud.java:362 | for a count at most the highest frequency, the quotient plus 11 fits in an `int`, so the sum does not wrap there |
| `TagCloud.TagCloudState.FontSizeMonotone` | TagCloudGenerator/TagCloudGenerator/src/TagCloud.java:354-369 | for counts up to the highest frequency, a higher count never gets a smaller font |
| `TagCloud.TagCloudState.FontSizeWrapsAtTop` | TagCloudGenerator/TagCloudGenerator/src/TagCloud.java:362-365 | above the highest frequency the sum can wrap: with both bounds at 1, count 2147483637 gets font 48 and count 2147483647 gets 11 |
| `TagCloud.TagCloudState.FontSizeAtMax` | TagCloudGenerator/TagCloudGenerator/src/TagCloud.java:354-369 | with a frequency range of at least 37, the highest count gets font 48 |
| `TagCloud.JavaDivTruncates` | TagCloudGenerator/TagCloudGenerator/src/TagCloud.java:362 | Java's `/` by a positive divisor: the remainder lies in [0, b) for a non-negative dividend and in (-b, 0] for a negative one, so the quotient is truncated toward zero |
| `TagCloud.JavaDivMonotone` | TagCloudGenerator/TagCloudGenerator/src/TagCloud.java:362 | Java's truncating division by a positive divisor is monotone |
| `TagCloud.DivMonotone` | TagCloudGenerator/TagCloudGenerator/src/TagCloud.java:362 | division of naturals by a positive divisor is monotone |
| `TagCloud.MulMonotone` | TagCloudGenerator/TagCloudGenerator/src/TagCloud.java:362 | multiplying by a non-negative number is monotone |
| `TagCloud.DivisorBound` | TagCloudGenerator/TagCloudGenerator/src/TagCloud.java:357-362 | a range divided by its own 37th (at least 1) is at least 37 |

## Left out

- I/O and entry points are not part of this model:
  - `Program1Parse1.parse(SimpleReader)`, and `main` in every file;
  - `makeStringFromFile`, `printTable` and `printHeader` in WordCounter;
  - the file reading in `wordsAndCountsGetter`, plus `outputHTML` and `closeStreams` in TagCloud.
  - The tag cloud's text arrives as the sequence of its lines instead.
- The tokenizer (`Tokenizer.tokens`, `isIdentifier`, `isCondition`) is not part of this model. The two predicates arrive as a `Lexicon`, under the assumption that the sentinel is neither.
- The `Condition` enum is not part of this model. A condition is its normalised spelling, and `Condition.valueOf` is assumed to accept every name built from a condition token.
- `Reporter` ends the program on an error. Here the parse returns a `Failure` instead. What the queue and the program object hold after an error is left unspecified.
- The default name that the `Program1Parse1` constructor gives a new program is not modelled. The constructor leaves the name empty.
- Pretty-printing and the OSU kernel classes are not part of this model. Statement, program, queue, set and map are replaced by Dafny values and the `TokenQueue` class.
- `Set3a` is generic over `Comparable` labels. The model uses `int` labels.
- `Set3a.newInstance`, `Set3a.iterator` and `NaturalNumber3.newInstance` are left out: reflection and iteration.
- The `NaturalNumber3(NaturalNumber)` constructor is left out, because it relies on a `toString` that is not part of this model.
- Case mapping covers ASCII only. Locale-dependent `toLowerCase`/`toUpperCase` on other characters is not modelled.
- `StringOrder.CompareToFirstDifference`: strings are sequences of Unicode code points (Dafny `char`), while Java's `compareTo`, `charAt` and `length` work on UTF-16 code units. Orders and lengths therefore agree with Java's only on text inside the Basic Multilingual Plane.
- `MapWithHashing` and `SortingMachineWithHeapsort` are not part of this model, since only their test fixtures exist.
- In WordCounter, `makeWordQueue` empties `wordSet` and restores it. Here the set is a value the method never changes.
- In TagCloud, the `Map` and `Queue` objects that the program updates in place are returned values:
  - the `descendingSort` map is emptied in the source and left as it was here;
  - the counting loop is split into `CountRun` (one pass) and `CountLine` (one line).
- Integer overflow of word counts is not modelled; counts are unbounded.
- `TagCloud.DescendingSort`: when counts tie, the source takes whichever entry the hash map's iteration gives first. The model allows any of them, so only the count order is promised.
- `TagCloud.TagCloudState.AlphabeticalSort` requires `size <= |tagCloudElements|`, because the source's `remove()` throws on an empty queue. Its selection starts from the first remaining entry rather than from the sentinel (see Findings).
- `TagCloud.TagCloudState.FontSize` requires `0 <= minFrequency <= maxFrequency`, as it is after a sort of non-negative counts, and a non-negative frequency. It does not model the initial `Integer.MAX_VALUE`/`Integer.MIN_VALUE` bounds, whose `int` subtraction overflows. The sum `quotient + 11` is wrapped to 32 bits as in Java. The program only passes kept counts, which lie between the two bounds, and there the sum never wraps (`TagCloud.SumFits`).
- `WordCounter.GenerateElements`: the method's documentation says the set is replaced, but the code only adds to it. The model follows the code, so the result is the old set together with the characters of the string.

## Findings

| source | as written | input that shows it | evidently intended | confidence | as-written member | corrected member |
|---|---|---|---|---|---|---|
| NaturalNumberOnString/src/NaturalNumber3.java:134-137 | `multiplyBy10` appends the digit, then tests whether the string is empty, which can no longer be true | zero (the empty string) times 10 plus 0 stores "0": the convention breaks, and `isZero` answers false for the number 0 | zero stays the empty string when `k` is 0 | not executed | `NaturalNumberOnString.MultiplyZeroByTenAsWritten` | `NaturalNumberOnString.NaturalNumber.MultiplyBy10` |
| TagCloudGenerator/TagCloudGenerator/src/TagCloud.java:259-283 | each pass of `alphabeticalSort` starts its scan from the sentinel ("ZZZ", -1) and keeps an entry only when it comes strictly before it, case-blind | a kept entry whose key is "zzz" (or any key not before "zzz" once lower-cased): the pass selects the sentinel, `remove` finds nothing, the sentinel is appended, and the loop never ends | each pass selects the smallest remaining entry, so the copy shrinks by one per pass | not executed | `TagCloud.ZzzStalls` | `TagCloud.TagCloudState.AlphabeticalSort` |
