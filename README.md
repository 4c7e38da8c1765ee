# hacspec: affine type checker and fixed-length arrays

This project models two parts of hacspec, written in Dafny, and proves
properties of the model.

1. **The type checker of the hacspec language** (`hacspec-lang/src/typechecker.rs`).
   Its input is a parsed program: function items whose bodies are straight-line
   `let` statements over tuples, variables, binary and unary operators,
   literals, sequence indexing, and function and method calls. Its output is
   either the annotated program or a failure with diagnostics. Types carry a
   borrowing mode: a *Consumed* value that is not of a copy type is moved out
   of the variable context by its first use. A *Borrowed* value stays.
2. **The fixed-length arrays of the hacspec library** (`hacspec/src/array.rs`).
   The array macro generates a type of exactly `L` unsigned integers, with:
   - construction by prefix copy and sub-range copy, padded with zeros;
   - in-place window updates;
   - big-endian serialisation;
   - chunking;
   - hex parsing and printing;
   - regrouping of a byte array into 32-, 64- or 128-bit words.

## Layout

| file | module | contents |
|---|---|---|
| `wrappers.dfy` | `Wrappers` | `Option`, `Result` |
| `syntax.dfy` | `Syntax` | the AST the checker consumes, without source spans |
| `types.dfy` | `TypeRules` | `is_copy`, `equal_types` |
| `contexts.dfy` | `Contexts` | signature table keys, contexts, diagnostics, `check_vec`, map union |
| `threading.dfy` | `Threading` | loops that thread a state through a list, as closures, with their functional specifications |
| `expressions.dfy` | `ExprChecker` | `typecheck_expression`, one function per arm |
| `expression_arms.dfy` | `ExprArms` | the tuple, free-call and method-call arms as imperative loops, proved equal to the rule |
| `expr_props.dfy` | `ExprProps` | affinity and the typing rules of each expression form |
| `statements.dfy` | `StmtChecker` | `typecheck_pattern`, `typecheck_statement`, `typecheck_block`, `typecheck_item`, `typecheck_program` |
| `pattern_props.dfy` | `PatternProps` | the pattern binder against a reference definition |
| `stmt_props.dfy` | `StmtProps` | statement, block and program rules |
| `checker_examples.dfy` | `CheckerExamples` | worked programs |
| `byte_order.dfy` | `ByteOrder` | big- and little-endian byte strings of integers |
| `array_spec.dfy` | `ArraySpec` | what each array operation computes, on sequences |
| `array_props.dfy` | `ArrayProps` | index contracts, round trips, chunking, hex |
| `fixed_array.dfy` | `FixedArrays` | the array type as a class over an `array<nat>` |

## How the model is built

**Diagnostics.** Every checking function returns `Checked(res, log)`. Here
`res` is `Ok(value)` or `Err`, and `log` lists the diagnostics reported while
computing it, one `Diag` constructor per message the source emits. The log
makes the source's "report and carry on" behaviour visible in the model:
- the arity mismatch diagnostic at free and method calls;
- tuple elements and program items that are checked after an earlier one failed.

**Loops.** The source writes these parts as loops over a `let mut` variable:
- the tuple arm;
- the argument loops of free and method calls;
- the block loop;
- the program walk.

Each is a `method` with a loop. It is proved equal to a recursive function,
and the properties are proved about that function. The loops are written once
in `Threading` over a step closure:
- `CollectLoop` visits every element;
- `ZipLoop` stops at the first failure;
- `StmtsLoop` walks the statements of a block.

Instantiation lemmas such as `ExprArms.TupleElemsIsCollect` show that the
concrete rule is that loop with the concrete step.

**Arrays.** `FixedArrays.FixedArray` has these fields:
- `width`, one of the unsigned element types `u8` … `u128`;
- the length `len`;
- the buffer `data: array<nat>`.

`Valid()` says that the buffer has length `len` and that every element is below
`256^Size(width)`. The source's constructors become Dafny constructors. `update`
and `update_sub` are methods that write the buffer in place.
Each loop is proved against a function in `ArraySpec`:
- `Padded` and `SubPadded` for construction;
- `Updated` for the window updates;
- `Serialize` for `to_bytes_be`;
- `Words` for the word regrouping;
- `ChunksOf` for `chunks`;
- `HexDecode` and `HexEncode` for hex text.

`ArrayProps` proves the properties of these functions.

**Where the code and its documentation differ**, the model follows the code:
- The program and each tuple are checked element by element to the end, even
  after a failure: `map(..).collect()` followed by `check_vec`. Program
  checking is therefore not fail-fast. A failing item does not publish its
  signature, and later items are still checked and still report
  (`StmtProps.ProgramLog`, `StmtProps.TableAfterItem`).
- A signature's return type is a base type. A call always yields it as
  Consumed (`ExprProps.FuncCallRule`).
- A `let` does not shadow a name that is still bound. The persistent map's
  `union` keeps the receiver's binding on a clash, so the current binding wins
  (`StmtProps.LetKeepsLiveBinding`). For the same reason, the first occurrence
  of a repeated name in a tuple pattern wins (`PatternProps.RepeatedName`).
  This precedence belongs to the persistent map library, which is not part of
  this model. It is made explicit as the named choice `Contexts.MapUnion`.

**Consequences of the code, proved as lemmas:**
- `typecheck_statement` only ever succeeds with type Consumed unit, so the
  block's check that non-final statements are unit can never fire
  (`StmtProps.UnitCheckUnreachable`).
- `typecheck_program` only adds `Static` keys to the table, so a method call
  inside a checked program never resolves (`StmtProps.TableOnlyStatic`,
  `StmtProps.MethodCallUnresolved`).
- The method-call receiver is checked a second time as the last argument. A
  moved receiver therefore fails that second check
  (`ExprProps.MovedReceiverFails`).

## Model

| member | source | states |
|---|---|---|
| TypeRules.IsCopyIffScalarLeaves | hacspec-lang/src/typechecker.rs:5-26 | a base type is copy iff every leaf reached through tuples is unit, bool or an integer; sequences and named types never are |
| TypeRules.AllCopyIffScalarLeaves | hacspec-lang/src/typechecker.rs:24 | a list of tuple components is all copy iff all their leaves are scalar |
| TypeRules.EqualTypes | hacspec-lang/src/typechecker.rs:28-80 | the structural comparison (modes, integer kinds, sequence elements, paths segment by segment with optional argument, tuples componentwise) holds iff the two span-free types are equal |
| Contexts.MapUnion | hacspec-lang/src/typechecker.rs:544 | the union has the keys of both maps, and the receiver's binding wins on a shared key |
| Contexts.CheckVec | hacspec-lang/src/typechecker.rs:96-102 | `Ok` iff every entry is `Ok`, and then the values in order |
| Threading.CollectAll | hacspec-lang/src/typechecker.rs:113-131 | visiting a list yields one result per element |
| Threading.CollectAllAppend | hacspec-lang/src/typechecker.rs:616-624 | visiting `xs + ys` is visiting `xs`, then visiting `ys` from the state `xs` left |
| Threading.CollectLoop | hacspec-lang/src/typechecker.rs:113-131 | the loop that reassigns the threaded state computes the recursive visit |
| Threading.ZipLoop | hacspec-lang/src/typechecker.rs:357-387 | the loop over zipped pairs with early return computes the recursive walk that stops at the first failure |
| ExprChecker.CheckIdent | hacspec-lang/src/typechecker.rs:141-168 | a variable use succeeds iff the name is simple and bound; its type is the bound one; exactly a Consumed non-copy variable is removed from the context; a failure reports the unknown variable |
| ExprChecker.TupleElems | hacspec-lang/src/typechecker.rs:113-131 | every element of a tuple is checked, one result per element |
| ExprArms.TupleElemsIsCollect | hacspec-lang/src/typechecker.rs:113-131 | the tuple rule is the collecting visit with the element check as step |
| ExprArms.CheckArgsIsZip | hacspec-lang/src/typechecker.rs:357-387 | the argument rule is the zipped walk over parameter types and arguments |
| ExprArms.ParamTypes | hacspec-lang/src/typechecker.rs:358 | the parameter types of a signature, in order |
| ExprArms.TypecheckTuple | hacspec-lang/src/typechecker.rs:112-140 | the imperative tuple arm computes the expression checker's result |
| ExprArms.TypecheckArgs | hacspec-lang/src/typechecker.rs:357-387 | the imperative argument loop computes the argument rule |
| ExprArms.TypecheckFuncCall | hacspec-lang/src/typechecker.rs:335-400 | the imperative free-call arm computes the expression checker's result |
| ExprArms.TypecheckMethodCall | hacspec-lang/src/typechecker.rs:401-463 | the imperative method-call arm computes the expression checker's result |
| ExprProps.ExprShrinks | hacspec-lang/src/typechecker.rs:104-464 | a successful check never adds or retypes a variable, and removes only Consumed non-copy ones |
| ExprProps.BinaryShrinks | hacspec-lang/src/typechecker.rs:169-185 | the same for a binary expression |
| ExprProps.IndexShrinks | hacspec-lang/src/typechecker.rs:280-334 | the same for indexing |
| ExprProps.FuncCallShrinks | hacspec-lang/src/typechecker.rs:335-400 | the same for a free call |
| ExprProps.MethodCallShrinks | hacspec-lang/src/typechecker.rs:401-463 | the same for a method call |
| ExprProps.ElemShrinks | hacspec-lang/src/typechecker.rs:117-119 | one tuple element, checked or not, only shrinks the context |
| ExprProps.ElemsShrink | hacspec-lang/src/typechecker.rs:113-131 | the context a tuple leaves, even a failing one, is a shrinking of the start context |
| ExprProps.ArgShrinks | hacspec-lang/src/typechecker.rs:359-365 | one successful argument only shrinks the context |
| ExprProps.ArgsShrink | hacspec-lang/src/typechecker.rs:357-387 | a successful argument list only shrinks the context |
| ExprProps.UnmovedSurvives | hacspec-lang/src/typechecker.rs:141-168 | a Borrowed or copy variable is still bound, to the same type, after any successful check |
| ExprProps.UseTwice | hacspec-lang/src/typechecker.rs:169-185 | `x op x` succeeds iff `x` is not a Consumed non-copy variable; otherwise the right operand reports `x` unknown |
| ExprProps.BinaryRule | hacspec-lang/src/typechecker.rs:169-185 | a binary expression succeeds iff both operands do, the right from the left's context, with identical types; the result is the left type |
| ExprProps.IndexRule | hacspec-lang/src/typechecker.rs:280-334 | `a[i]` succeeds iff `a` has a sequence base type, whatever its mode, and `i` is a Consumed integer; the result is the Consumed element type |
| ExprProps.TupleElemAt | hacspec-lang/src/typechecker.rs:113-131 | element `k`'s outcome is decided in the context the elements before it left |
| ExprProps.TupleRule | hacspec-lang/src/typechecker.rs:112-140 | a tuple succeeds iff every element checks to a Consumed type; the type is the Consumed tuple of the element base types |
| ExprProps.ArgsPrefix | hacspec-lang/src/typechecker.rs:357-387 | a failing prefix of the argument pairs fails the call; a passing one hands its context to the rest |
| ExprProps.ExtraArgsIgnored | hacspec-lang/src/typechecker.rs:345-358 | arguments beyond the parameter list are never checked |
| ExprProps.MissingArgsAccepted | hacspec-lang/src/typechecker.rs:345-358 | parameters beyond the argument list are never asked for |
| ExprProps.ArgMismatchFails | hacspec-lang/src/typechecker.rs:359-386 | the first argument whose mode or base type differs from its parameter's fails the call |
| ExprProps.FuncCallRule | hacspec-lang/src/typechecker.rs:335-400 | qualified callees and unknown names fail with their diagnostic; for a simple known name the call succeeds iff the argument walk does, leaves that walk's context, yields the Consumed return type, and reports an arity mismatch without failing |
| ExprProps.MethodCallRule | hacspec-lang/src/typechecker.rs:401-463 | a failing receiver or an unknown method fails with its diagnostic; otherwise the call succeeds iff the argument walk over the arguments followed by the receiver does, from the context the receiver's first check left, yields the Consumed return type, and reports an arity mismatch without failing |
| ExprProps.MovedReceiverFails | hacspec-lang/src/typechecker.rs:401-463 | a Consumed non-copy receiver variable makes the call fail when the signature has a parameter for it |
| ExprProps.CopyReceiverSucceeds | hacspec-lang/src/typechecker.rs:401-463 | for a call without arguments whose signature has only a receiver parameter of the receiver's own type, a receiver that is not moved passes its second check, and the call yields the return type and the unchanged context |
| StmtChecker.CheckStatement | hacspec-lang/src/typechecker.rs:511-550 | a `let` succeeds iff the expression checks, a declared type equals its type and the pattern binds against it; then its type is Consumed unit, no variable is mutated, and the new context is the expression's context united with the bindings |
| StmtChecker.StmtsLoop | hacspec-lang/src/typechecker.rs:558-578 | the statement loop with early returns computes the recursive block walk |
| StmtChecker.TypecheckBlock | hacspec-lang/src/typechecker.rs:552-586 | the imperative block check computes the block rule |
| StmtChecker.ParamContextKeys | hacspec-lang/src/typechecker.rs:596-600 | the parameter context binds exactly the parameter names |
| StmtChecker.ParamContextLastWins | hacspec-lang/src/typechecker.rs:596-600 | a repeated parameter name is bound to its last type |
| StmtChecker.CheckItem | hacspec-lang/src/typechecker.rs:588-613 | a use passes unchanged; a function is accepted iff its body checks in its parameters' context against the table as it was, reports exactly the body's diagnostics, holds the checked body and adds its own signature, and nothing else, to the table |
| StmtChecker.TypecheckProgram | hacspec-lang/src/typechecker.rs:615-626 | the program loop that reassigns the table computes the program rule |
| PatternProps.BindFoldIsReference | hacspec-lang/src/typechecker.rs:480-490 | the fold over components fails iff the accumulator or a component fails, and adds the bindings behind the accumulated ones |
| PatternProps.PatternIsReference | hacspec-lang/src/typechecker.rs:466-509 | the binder fails iff a tuple pattern meets a non-tuple type; otherwise it binds each name to the type at its first occurrence |
| PatternProps.FirstWinsAppend | hacspec-lang/src/typechecker.rs:488 | joining two binding lists is the union of their contexts, the first list winning |
| PatternProps.PairPattern | hacspec-lang/src/typechecker.rs:472-491 | `(a, b)` against `(bool, u8)` binds both |
| PatternProps.ShortPattern | hacspec-lang/src/typechecker.rs:473-479 | a short tuple pattern reports the arity mismatch and still binds its components |
| PatternProps.RepeatedName | hacspec-lang/src/typechecker.rs:488 | in `(a, a)` the first component's binding wins |
| PatternProps.TuplePatternNeedsTuple | hacspec-lang/src/typechecker.rs:492-502 | a tuple pattern against a non-tuple type fails with its diagnostic |
| PatternProps.BorrowedTupleComponents | hacspec-lang/src/typechecker.rs:481-486 | components of a Borrowed tuple are bound as Consumed |
| StmtProps.LetBindsFreshName | hacspec-lang/src/typechecker.rs:518-546 | `let x = e` with `x` free afterwards binds `x` to the type of `e`, iff any declared type is that type |
| StmtProps.LetKeepsLiveBinding | hacspec-lang/src/typechecker.rs:544 | `let x = e` with `x` still bound keeps the old binding |
| StmtProps.DeclaredTypeMismatchFails | hacspec-lang/src/typechecker.rs:521-538 | a declared type different from the expression's fails with its diagnostic |
| StmtProps.ThreadIgnoresRet | hacspec-lang/src/typechecker.rs:575 | on a non-empty block the return type carried in is always overwritten |
| StmtProps.UnitCheckUnreachable | hacspec-lang/src/typechecker.rs:566-574 | when statements only succeed with unit type, the block walk equals plain threading |
| StmtProps.StmtsRunOutcome | hacspec-lang/src/typechecker.rs:558-586 | a successful block records no mutated variable and returns Consumed unit, or nothing when empty |
| StmtProps.BlockRule | hacspec-lang/src/typechecker.rs:552-586 | a block succeeds iff its statements thread successfully; the annotated block has an empty mutated set and the result type above |
| StmtProps.ProgramStep | hacspec-lang/src/typechecker.rs:616-624 | one more item extends the walk by that item's step |
| StmtProps.TableAfterItem | hacspec-lang/src/typechecker.rs:619-620 | a failing item leaves the table as it was; a passing one publishes what the item rule returns |
| StmtProps.ItemAt | hacspec-lang/src/typechecker.rs:615-626 | item `k` is checked against the table the items before it built |
| StmtProps.ProgramRule | hacspec-lang/src/typechecker.rs:615-626 | a program checks iff every item checks against its table, and then holds the checked items |
| StmtProps.ProgramLog | hacspec-lang/src/typechecker.rs:615-626 | every item reports, also after an earlier failure |
| StmtProps.TableOnlyStatic | hacspec-lang/src/typechecker.rs:606 | the program's table only has free-function keys |
| StmtProps.MethodCallUnresolved | hacspec-lang/src/typechecker.rs:406-415 | with such a table every method call fails |
| CheckerExamples.IdOfBool | hacspec-lang/src/typechecker.rs:335-400 | `id(true)` has type bool |
| CheckerExamples.IdOfByte | hacspec-lang/src/typechecker.rs:377-383 | `id(1u8)` is refused with the argument type diagnostic |
| CheckerExamples.IdWithExtraArgument | hacspec-lang/src/typechecker.rs:345-356 | `id(true, nope)` reports the arity and succeeds without looking at `nope` |
| CheckerExamples.NoSelfRecursion | hacspec-lang/src/typechecker.rs:594-606 | a function body cannot call the function itself |
| ByteOrder.BytesBE | hacspec/src/array.rs:116 | `n` bytes, each below 256 |
| ByteOrder.ValueOfBytesBE | hacspec/src/array.rs:116 | reading big-endian bytes back gives the value, below `256^n` |
| ByteOrder.BytesOfValueBE | hacspec/src/array.rs:488 | big-endian bytes of a byte string's value are the byte string |
| ByteOrder.ValueOfBytesLE | hacspec/src/array.rs:497 | the little-endian round trip from a value |
| ByteOrder.BytesOfValueLE | hacspec/src/array.rs:497 | the little-endian round trip from a byte string |
| ArraySpec.Padded | hacspec/src/array.rs:37-41 | length `l`, the input as prefix and zeros after it |
| ArraySpec.SubPadded | hacspec/src/array.rs:54-60 | position `j` holds `input[start + j]` where `start + j` is in the range and the input, and zero elsewhere |
| ArraySpec.Updated | hacspec/src/array.rs:88-94 | the window holds `v`, and every other position is unchanged |
| ArrayProps.SerializeLength | hacspec/src/array.rs:114 | serialising `L` elements of `F` bytes gives `L * F` bytes |
| ArrayProps.SerializeIndex | hacspec/src/array.rs:115-120 | byte `j` of element `i` is at position `i * F + j` |
| ArrayProps.WordsOfSerialize | hacspec/src/array.rs:112-122 | reading the serialised bytes back `F` at a time gives the elements |
| ArrayProps.WordsLength | hacspec/src/array.rs:485 | a byte string yields `len / n` words |
| ArrayProps.WordsIndex | hacspec/src/array.rs:486-489 | word `i` is built from bytes `n*i .. n*i+n-1` |
| ArrayProps.SerializeOfWords | hacspec/src/array.rs:484-536 | writing the words back out gives the original bytes, when the length is a multiple of `n` |
| ArrayProps.WordsOfChunks | hacspec/src/array.rs:486-488 | on such a length every piece of `n` has exactly `n` bytes, and its value is the word |
| ArrayProps.ChunksPieces | hacspec/src/array.rs:149-156 | every piece carries its own length, between 1 and `k`, and all but the last have exactly `k` |
| ArrayProps.ChunksConcat | hacspec/src/array.rs:149-156 | the pieces put together are the array |
| ArrayProps.ChunksCount | hacspec/src/array.rs:149-156 | there are `ceil(L / k)` pieces |
| ArrayProps.ChunksExample | hacspec/src/array.rs:131-147 | `[0,1,2,3,4]` in pieces of 2 is `[0,1]`, `[2,3]`, `[4]` |
| ArrayProps.HexEncodeShape | hacspec/src/array.rs:537-540 | printing gives two lower-case digits per element |
| ArrayProps.HexDecodeEncode | hacspec/src/array.rs:257-275 | parsing what was printed gives the elements back |
| ArrayProps.HexDecodeShape | hacspec/src/array.rs:257-264 | a successful parse has two characters per element, each element a byte |
| ArrayProps.HexEncodeDecode | hacspec/src/array.rs:537-540 | even-length lower-case hex text parses, and printing the result gives the text back |
| ArrayProps.HexDecodeExamples | hacspec/src/array.rs:259-263 | either case parses, a plus sign may lead a pair, and an odd length or a non-digit is refused |
| FixedArrays.FixedArray.New | hacspec/src/array.rs:46-48 | `L` zeros |
| FixedArrays.FixedArray.FromArray | hacspec/src/array.rs:31-33 | a copy of exactly `L` elements |
| FixedArrays.FixedArray.PaddedBuffer | hacspec/src/array.rs:37-41 | the prefix-copy loop fills a fresh buffer with the padded input |
| FixedArrays.FixedArray.FromSlice | hacspec/src/array.rs:35-42 | at most `L` elements become the prefix, zeros follow |
| FixedArrays.FixedArray.CopyPad | hacspec/src/array.rs:72-79 | at most `L` elements become the prefix, zeros follow |
| FixedArrays.FixedArray.Copy | hacspec/src/array.rs:80-87 | exactly `L` elements are copied |
| FixedArrays.FixedArray.FromVec | hacspec/src/array.rs:230-237 | at most `L` elements become the prefix, zeros follow |
| FixedArrays.FixedArray.FromSeq | hacspec/src/array.rs:241-248 | at most `L` elements become the prefix, zeros follow |
| FixedArrays.FixedArray.SubPadBuffer | hacspec/src/array.rs:54-60 | the sub-range loop writes `input[i]` to `i - start` |
| FixedArrays.FixedArray.FromSubPad | hacspec/src/array.rs:53-62 | the existing part of the range, moved to the front and padded |
| FixedArrays.FixedArray.FromSub | hacspec/src/array.rs:64-70 | the same for a range of exactly `L` positions |
| FixedArrays.FixedArray.Len | hacspec/src/array.rs:109-111 | the length is `L`, whatever the contents |
| FixedArrays.FixedArray.Get | hacspec/src/array.rs:178-183 | the element at a position below `L`, a value of the element type |
| FixedArrays.FixedArray.Set | hacspec/src/array.rs:184-188 | one position takes a new value and nothing else changes |
| FixedArrays.FixedArray.Update | hacspec/src/array.rs:88-94 | the window `start..start+|v|` becomes `v` in place, and the rest is unchanged |
| FixedArrays.FixedArray.UpdateSub | hacspec/src/array.rs:95-108 | `self[start_out+i] = v[start_in+i]` for `i < len`, and the rest is unchanged |
| FixedArrays.FixedArray.Chunks | hacspec/src/array.rs:149-156 | `ceil(L/k)` pieces of length `k`, except possibly the last, whose concatenation is the array |
| FixedArrays.FixedArray.ToBytesBE | hacspec/src/array.rs:112-122 | the nested loop writes every element's big-endian bytes, one after the other |
| FixedArrays.FixedArray.WriteBytes | hacspec/src/array.rs:117-119 | the inner loop writes one element's bytes right after the given position, and every position after them keeps its value |
| FixedArrays.FixedArray.ToWords | hacspec/src/array.rs:485-490 | the loop over pieces of `n` bytes computes the words |
| FixedArrays.FixedArray.ToU32sBE | hacspec/src/array.rs:484-491 | big-endian 32-bit words |
| FixedArrays.FixedArray.ToU32sLE | hacspec/src/array.rs:493-500 | little-endian 32-bit words |
| FixedArrays.FixedArray.ToU64sBE | hacspec/src/array.rs:502-509 | big-endian 64-bit words |
| FixedArrays.FixedArray.ToU64sLE | hacspec/src/array.rs:511-518 | little-endian 64-bit words |
| FixedArrays.FixedArray.ToU128sBE | hacspec/src/array.rs:520-527 | big-endian 128-bit words |
| FixedArrays.FixedArray.ToU128sLE | hacspec/src/array.rs:529-536 | little-endian 128-bit words |
| FixedArrays.FixedArray.HexStringToVec | hacspec/src/array.rs:257-264 | the text read two characters at a time, or failure where the source panics |
| FixedArrays.FixedArray.FromHex | hacspec/src/array.rs:266-275 | the array of exactly the `L` elements the text parses to |
| FixedArrays.FixedArray.ToHex | hacspec/src/array.rs:537-540 | two lower-case digits per byte, in order |
| FixedArrays.HexRoundTrip | hacspec/src/array.rs:266-275 | `from_hex` of `to_hex` gives an array with the same elements |

## Left out

- The diagnostic sink and source spans: diagnostics are structured values in a log, without spans or message text.
- `Display` formatting of types, which only serves messages.
- Type comparison is on span-free values. The source's derived equality on paths and base types may also compare spans.
- Operator kinds, literal values and the method-call receiver's borrow annotation: the checker does not look at them.
- The `unimplemented!()` statement kinds. The only statement is the `let` binding.
- `Item::Use` is modelled only as passing through unchanged, as the source does. Imports are not resolved.
- The precedence of the persistent map library's `union` is not derived. It is fixed as `Contexts.MapUnion`, left-biased.
- The array's element type is modelled by its width only. Secret and public integers are the same numbers here.
- `random` and `get_random_vec`, which draw from the `rand` crate.
- The `fmt::Debug` impls.
- `classify`, `declassify` and the `PartialEq` impls built from them, along with `from_public_slice`, `from_public_array`, `from_public` and `from_secret_declassify`.
- The `_implement_numeric_*` macros, which are not part of this model.
- The secret `to_U32s_*` family, which calls word conversions that are not part of this model.
- The `AsMut` impl and the `SeqTrait` and `Seq` types. Inputs of these kinds are `seq<nat>`, and `iter` is element order.
- Indexing by `u8`, `u32` and `i32`. Only unsigned positions below `L` are modelled. `i32 as usize` wraps a negative index to a huge one, which then fails the bounds check.
- Panics are preconditions. Where the source has a `debug_assert!`, or would panic on an index out of bounds, the operation requires what the assertion or the bound demands. This is the behaviour of a debug build.
- FixedArrays.FixedArray.FromSubPad: requires `start <= end` (the subtraction `r.end - r.start` overflows otherwise) and requires that the copied part fits in `L` (the write `a[i - r.start]` is bounds-checked).
- FixedArrays.FixedArray.HexStringToVec: the `expect` panic is modelled as the result `None`. Strings are character sequences, so byte offsets and the char-boundary panics of `&s[i..i + 2]` on non-ASCII text are not modelled.
- FixedArrays.FixedArray.Len: `capacity` is an associated function returning the same `L` and is covered by this member.
- The array's value semantics (`Copy`, `clone`, `update` consuming and returning `self`) is modelled as a fresh buffer per constructor and in-place updates on the one buffer.
