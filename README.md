# Rust language walkthroughs, modelled in Dafny

Models of the small programs in the `rust_lang` learning repository that hold real logic, with proofs about them:

- **Fibonacci calculator** (chapter 3 exercise). `nth_fibonacci` is the naive recursion over `usize`. `main` is a console loop with these steps:
  - prompt for an index and read a line;
  - silently prompt again when the trimmed line is not a `usize`;
  - print `nth fibonacci: {fib(n)}` and ask `Keep going? (y/n)[n]:`;
  - continue on a trimmed answer of `y` or `Y`, and stop on anything else.

  The model has these parts:
  - the recursion as a function, with exactly when its 64-bit additions fit (`n <= 93`);
  - the loop as a state machine (`Step`, `RunFrom`, `Run`) over a finite sequence of input lines, producing the printed lines and the number of lines read;
  - an imperative `Session` method that follows `main`'s loop statement by statement, proved to produce exactly `Run`. It departs from `main` in two places:
    - it returns when the input runs out; from there `main` reads empty lines, so waiting for an index it prompts forever, and waiting for an answer it stops;
    - it tests `index.value > MAX_FIB_INDEX` and stops in the `Panicked` phase, where `main` calls `nth_fibonacci` and the program ends abnormally inside it (the debug-build overflow panic, or stack exhaustion for very deep recursion).

  `str::trim`, `usize::from_str` and the decimal `Display` of integers live in `RustPrelude`.
- **First-word scanner** (chapter 4, slices). `first_word`, `first_word_slice` and `first_word_slice_as_parameter` are `while` loops with an early return. Each is proved against one specification function, `WordEnd`, the position of the first space byte or the length. The range forms `[a..b]`, `[..b]` and `[..]` are modelled, with their panics as `None`. A `String` is an `OwnedString` object whose `clear` empties its buffer in place.
- **Rectangles** (chapter 5). There are three parts:
  - the free functions `area`, `area_tuple` and `area_struct` on `u32`;
  - the `impl Rectangle` methods `area`, `can_hold` and `square`;
  - proofs that `can_hold` is a strict order, that it implies a smaller area, and that the method and function versions of the area agree.
- **User records** (chapter 5). `build_user`, the struct update `User { email, username, ..user1 }` and the field assignment `user1.email = …` are modelled, each with what it sets and what it keeps.

Rust's `u32`, `u64` and `usize` are the `newtype`s `u32` and `u64` and the bound `USIZE_MAX`, for a 64-bit target. Arithmetic that could overflow is either guarded by a precondition (`MulFitsU32`) or given an explicit outcome (the `Panicked` phase of the calculator).

## Model

| member | source | states |
|---|---|---|
| Fibonacci.NthFibonacci | chapter_03/exercises/fibonacci/src/main.rs:3-9 | the naive recursion `fib(0) = 0`, `fib(1) = 1`, `fib(n) = fib(n-1) + fib(n-2)` over unbounded naturals; its properties are `NthFibonacciBase`, `NthFibonacciRecurrence`, `NthFibonacciMonotone`, `NthFibonacciFitsIff` and `NoOverflowIff` below |
| Fibonacci.NthFibonacciBase | chapter_03/exercises/fibonacci/src/main.rs:4-5 | for `n <= 1` the result is `n` |
| Fibonacci.NthFibonacciRecurrence | chapter_03/exercises/fibonacci/src/main.rs:7 | for `2 <= n <= 93`, `fib(n) = fib(n-1) + fib(n-2)`, and that `usize` addition does not overflow |
| Fibonacci.NthFibonacciMonotone | chapter_03/exercises/fibonacci/src/main.rs:3-9 | `m <= n` implies `fib(m) <= fib(n)` |
| Fibonacci.NthFibonacciAtLimit | chapter_03/exercises/fibonacci/src/main.rs:3-9 | `fib(93) = 12200160415121876738 <= usize::MAX < fib(94) = 19740274219868223167` |
| Fibonacci.NthFibonacciFitsIff | chapter_03/exercises/fibonacci/src/main.rs:3-9 | `fib(n)` is a `usize` if and only if `n <= 93` |
| Fibonacci.NoOverflowIff | chapter_03/exercises/fibonacci/src/main.rs:7 | every value the recursion for `n` computes fits in `usize` if and only if `n <= 93` |
| Fibonacci.NthFibonacciExamples | chapter_03/exercises/fibonacci/src/main.rs:3-9 | `fib` of 0, 1, 2, 3, 4, 5, 7, 10 and 20 is 0, 1, 1, 2, 3, 5, 13, 55 and 6765 |
| Fibonacci.Render | chapter_03/exercises/fibonacci/src/main.rs:13-26 | the exact text of "Please enter n: ", "nth fibonacci: {value}" and "Keep going? (y/n)[n]:"; `RenderInjective` shows different lines have different texts and `RenderExamples` gives the result text for 5, 13 and 6765 |
| Fibonacci.RenderInjective | chapter_03/exercises/fibonacci/src/main.rs:13-26 | two printed lines with the same text are the same line, so the prompt, each result and the continuation prompt can be told apart |
| Fibonacci.RenderExamples | chapter_03/exercises/fibonacci/src/main.rs:24 | the result line for 5, 13 and 6765 is `nth fibonacci: 5`, `… 13`, `… 6765` |
| Fibonacci.ParseIndex | chapter_03/exercises/fibonacci/src/main.rs:19 | the index line is trimmed and parsed as a `usize`, so a value it gives is at most `usize::MAX`; `ParseUsize` and `TrimShape` say what is accepted |
| Fibonacci.KeepGoing | chapter_03/exercises/fibonacci/src/main.rs:32-33 | the trimmed answer is `y` or `Y`; `KeepGoingExamples` and `AnswerDecides` state its outcomes |
| Fibonacci.Step | chapter_03/exercises/fibonacci/src/main.rs:13-39 | one read of the loop: only an index line can panic or lead to the answer prompt, and then it prints nothing or exactly a result and the continuation prompt; a step back to the index prompt prints only that prompt; only an answer line can finish, printing nothing |
| Fibonacci.RunFrom | chapter_03/exercises/fibonacci/src/main.rs:12-40 | a resumed session never reads more lines than it is given |
| Fibonacci.Run | chapter_03/exercises/fibonacci/src/main.rs:12-40 | the whole session prints the index prompt first and reads no more lines than it is given; `ResultsMatchIndices`, `RunFromAppend` and `InputAfterTerminationIgnored` state what it prints and reads |
| Fibonacci.Session | chapter_03/exercises/fibonacci/src/main.rs:12-40 | the loop of `main` ends in the phase, with the printed lines and after reading the number of lines that `Run` gives for the same input |
| Fibonacci.IndexLineRead | chapter_03/exercises/fibonacci/src/main.rs:17-26 | reading an index line at any position: on no parse it prompts again; on `n > 93` it panics; otherwise it prints `fib(n)` and the continuation prompt |
| Fibonacci.AnswerLineRead | chapter_03/exercises/fibonacci/src/main.rs:28-39 | reading an answer line at any position: on `y`/`Y` it prompts for an index again; otherwise it finishes |
| Fibonacci.BadIndexLineReprompts | chapter_03/exercises/fibonacci/src/main.rs:19-22 | a line that does not parse prints no result, reads no answer and brings back the index prompt |
| Fibonacci.GoodIndexLineShowsResult | chapter_03/exercises/fibonacci/src/main.rs:24-26 | an index `n <= 93` prints exactly the result line `fib(n)` and the continuation prompt, then waits for an answer |
| Fibonacci.OverflowingIndexPanics | chapter_03/exercises/fibonacci/src/main.rs:24 | an index above 93 prints nothing more and ends the session abnormally (the debug-build overflow panic, or stack exhaustion for very deep recursion); an addition of the recursion for that index overflows `usize` |
| Fibonacci.AnswerDecides | chapter_03/exercises/fibonacci/src/main.rs:32-39 | a trimmed `y` or `Y` continues with the index prompt; any other answer finishes and reads nothing more |
| Fibonacci.KeepGoingExamples | chapter_03/exercises/fibonacci/src/main.rs:32-39 | `y`, `Y` and ` y\n` continue; the empty answer, `n`, `yes` and `YES` stop |
| Fibonacci.RunFromAppend | chapter_03/exercises/fibonacci/src/main.rs:12-40 | the session reads its input as a stream: running on `lines + more` is running on `lines`, then resuming where it stopped |
| Fibonacci.InputAfterTerminationIgnored | chapter_03/exercises/fibonacci/src/main.rs:36-38 | after the `break` (or a panic), no further input line is read and nothing more is printed |
| Fibonacci.EndOfInputAtIndexPromptLoops | chapter_03/exercises/fibonacci/src/main.rs:17-22 | at end of input (`read_line` gives an empty line), a session waiting for an index prompts again and again |
| Fibonacci.EndOfInputAtAnswerStops | chapter_03/exercises/fibonacci/src/main.rs:28-39 | at end of input, a session waiting for an answer finishes |
| Fibonacci.ResultsMatchIndices | chapter_03/exercises/fibonacci/src/main.rs:12-40 | the values of the result lines are `fib` of the well-formed indices read before the session stops, in order, with as many results as indices |
| Fibonacci.ResultsForGoodIndex | chapter_03/exercises/fibonacci/src/main.rs:24-39 | the same, for an input whose first line is an index that fits |
| Fibonacci.RoundThenContinue | chapter_03/exercises/fibonacci/src/main.rs:19-34 | a round answered with yes prints the result, the continuation prompt and the index prompt and reads two lines |
| Fibonacci.RoundThenStop | chapter_03/exercises/fibonacci/src/main.rs:19-38 | a round answered otherwise prints the result and the continuation prompt and finishes, whatever follows |
| Fibonacci.OneRoundThenStop | chapter_03/exercises/fibonacci/src/main.rs:12-40 | the whole session on an index and a no |
| Fibonacci.BadLineThenOneRound | chapter_03/exercises/fibonacci/src/main.rs:12-40 | the whole session on a malformed line, an index and a no: two index prompts, one result |
| Fibonacci.TwoRoundsThenStop | chapter_03/exercises/fibonacci/src/main.rs:12-40 | the whole session on index, yes, index, no: two results in input order |
| Fibonacci.SessionFiveThenNo | chapter_03/exercises/fibonacci/src/main.rs:12-40 | input `5`, `n` prints the prompt, `fib(5) = 5` and the continuation prompt, then finishes |
| Fibonacci.SessionSevenYesThreeNo | chapter_03/exercises/fibonacci/src/main.rs:12-40 | input `7`, `y`, `3`, `n` prints the results 13 and 2 |
| Fibonacci.SessionBadLineThenFourNo | chapter_03/exercises/fibonacci/src/main.rs:12-40 | input `x`, `4`, `n` prompts twice, then prints 3 |
| RustPrelude.IsWhitespace | chapter_03/exercises/fibonacci/src/main.rs:19-32 | Rust's `char::is_whitespace`, what `trim` cuts at lines 19 and 32: the 25 Unicode White_Space code points U+0009 to U+000D, U+0020, U+0085, U+00A0, U+1680, U+2000 to U+200A, U+2028, U+2029, U+202F, U+205F and U+3000 |
| RustPrelude.Trim | chapter_03/exercises/fibonacci/src/main.rs:19 | `str::trim`, used at lines 19 and 32, is never longer than its input; `TrimShape` and `TrimIdempotent` pin it down |
| RustPrelude.TrimShape | chapter_03/exercises/fibonacci/src/main.rs:19 | `trim` returns a part `s[a..b]` of its input without whitespace at either end, and cuts only whitespace |
| RustPrelude.TrimIdempotent | chapter_03/exercises/fibonacci/src/main.rs:32 | trimming a trimmed string changes nothing |
| RustPrelude.ParseUsize | chapter_03/exercises/fibonacci/src/main.rs:19-22 | a parsed value is at most `usize::MAX` and is the decimal value of the digits, with an optional leading `+`; every digit string up to `usize::MAX`, with or without a leading `+`, parses to its value |
| RustPrelude.ParseUsizeRejectsMinus | chapter_03/exercises/fibonacci/src/main.rs:19-22 | a string starting with `-` never parses |
| RustPrelude.NatToString | chapter_03/exercises/fibonacci/src/main.rs:24 | the `{}` rendering of a number is a non-empty string of digits with no leading zero |
| RustPrelude.DecimalValueOfNatToString | chapter_03/exercises/fibonacci/src/main.rs:24 | reading back the rendering of `n` gives `n` |
| RustPrelude.ParseUsizeOfNatToString | chapter_03/exercises/fibonacci/src/main.rs:19-24 | parsing the rendering of every `usize` gives it back |
| SliceType.WordEnd | chapter_04/slice_type/src/main.rs:170-177 | the end of the first word is at most the length, no byte before it is a space, and the byte at it is a space when it is inside the string |
| SliceType.WordEndUnique | chapter_04/slice_type/src/main.rs:170-177 | only one position has those three properties |
| SliceType.WordEndBeforeEndIff | chapter_04/slice_type/src/main.rs:170-177 | the first word stops before the end if and only if the string holds a space |
| SliceType.FirstWord | chapter_04/slice_type/src/main.rs:161-178 | the scan returns the index of the first space, or `s.len()` when there is none |
| SliceType.FirstWordSlice | chapter_04/slice_type/src/main.rs:149-159 | the scan returns the prefix up to that index, so it agrees with `first_word` |
| SliceType.FirstWordSliceAsParameter | chapter_04/slice_type/src/main.rs:137-147 | the `&str` version returns the same prefix for every byte string |
| SliceType.FirstWordShape | chapter_04/slice_type/src/main.rs:140-146 | the first word is a prefix with no space, as long as `first_word`'s index; it is the whole input if and only if there is no space, and a space follows it otherwise |
| SliceType.FirstWordIdempotent | chapter_04/slice_type/src/main.rs:137-147 | the first word of the first word is itself |
| SliceType.WordEndOfWordThenSpace | chapter_04/slice_type/src/main.rs:170-175 | a space-free word followed by a space ends at that space, whatever comes after |
| SliceType.OwnedString.From | chapter_04/slice_type/src/main.rs:16 | `String::from` holds exactly the given bytes |
| SliceType.OwnedString.Len | chapter_04/slice_type/src/main.rs:177 | `s.len()`, used at lines 65 and 177, the length in bytes; `FirstWord` returns it when there is no space, and `SliceExamples` uses it for `[0..len]` |
| SliceType.OwnedString.Clear | chapter_04/slice_type/src/main.rs:22 | `clear` leaves the string empty |
| SliceType.Slice | chapter_04/slice_type/src/main.rs:35-52 | `[a..b]` exists exactly when `a <= b <= len` (otherwise it panics), has length `b - a`, and holds the elements from `a` on, with `b` exclusive |
| SliceType.SliceTo | chapter_04/slice_type/src/main.rs:60 | `[..b]` exists exactly when `b <= len`, and is then the prefix of length `b`; `SliceToFromZero` ties it to `[0..b]` |
| SliceType.SliceFull | chapter_04/slice_type/src/main.rs:70 | `[..]`, also used at line 110, the full range; `SliceFullWhole` shows it is `[0..len]` and the whole sequence |
| SliceType.SliceToFromZero | chapter_04/slice_type/src/main.rs:56-61 | `[..b]` is `[0..b]` |
| SliceType.SliceFullWhole | chapter_04/slice_type/src/main.rs:64-71 | `[..]` is `[0..len]` and is the whole sequence |
| SliceType.SliceAdjacent | chapter_04/slice_type/src/main.rs:43-47 | `[a..m]` followed by `[m..b]` is `[a..b]`: the end of a range is exclusive, so no element is lost or repeated |
| SliceType.WordEndExamples | chapter_04/slice_type/src/main.rs:16-121 | the first word of "hello world" (lines 16-20 and 107-110), "hello world, I'm your ruler!" (lines 78-79) and "hello literal" (lines 113-121) ends at 5; "hello", with no space at all, is an added case where it ends at the length 5 |
| SliceType.SliceExamples | chapter_04/slice_type/src/main.rs:35-134 | "hello world"`[0..5]` is "hello" and `[6..11]` is "world"; "hello"`[0..2]` equals `[..2]`; "world"`[0..len]` equals `[..]`; `[1, 2, 3, 4, 5][1..3]` is `[2, 3]`; `[0..6]` and `[3..2]` of "hello" panic |
| SliceType.DetachedIndex | chapter_04/slice_type/src/main.rs:16-22 | the index 5 survives `s.clear()`, although the string is then empty: it no longer describes the string |
| SliceType.WordThenClear | chapter_04/slice_type/src/main.rs:86-95 | the first word of "hello world" is "hello", and the string is empty after `s.clear()` |
| SliceType.FirstWordWalkthrough | chapter_04/slice_type/src/main.rs:78-122 | the three scans in main, on a `String`, on `&s[..]` and on a literal, all give "hello" |
| StructExample.Area | chapter_05/struct_example/src/main.rs:80-82 | `width * height` in `u32`, defined when the product fits; `AreaSymmetric`, `AreaZeroIff` and `AreaMonotone` state its properties |
| StructExample.AreaTuple | chapter_05/struct_example/src/main.rs:76-78 | the tuple version equals `area(dimensions.0, dimensions.1)` |
| StructExample.AreaStruct | chapter_05/struct_example/src/main.rs:72-74 | the struct version equals `area(rect.width, rect.height)` |
| StructExample.AreaSymmetric | chapter_05/struct_example/src/main.rs:80-82 | `area(w, h) = area(h, w)`, and one fits in `u32` when the other does |
| StructExample.AreaZeroIff | chapter_05/struct_example/src/main.rs:80-82 | the area is 0 if and only if a side is 0 |
| StructExample.AreaMonotone | chapter_05/struct_example/src/main.rs:80-82 | smaller sides give an area no larger, and one that fits in `u32` when the larger one does |
| StructExample.AreaExamples | chapter_05/struct_example/src/main.rs:2-28 | `area(50, 30)` and `area_tuple((50, 30))` are 1500, `area_struct` of 30 by 30 is 900 |
| RectangleMethods.Rectangle.Area | chapter_05/methods/src/main.rs:8-10 | `self.width * self.height`, defined when it fits in `u32`; `AreaAgreesWithFunction` ties it to the free functions and `CanHoldShrinksArea` to `can_hold` |
| RectangleMethods.Rectangle.CanHold | chapter_05/methods/src/main.rs:12-14 | `self` is strictly wider and strictly taller than `other`; `CanHoldIrreflexive`, `CanHoldAsymmetric` and `CanHoldTransitive` show it is a strict order |
| RectangleMethods.Rectangle.Square | chapter_05/methods/src/main.rs:16-21 | `square(size)` has width and height `size` |
| RectangleMethods.AreaAgreesWithFunction | chapter_05/methods/src/main.rs:8-10 | the `area` method computes what the free `area` and `area_struct` functions compute |
| RectangleMethods.CanHoldIrreflexive | chapter_05/methods/src/main.rs:12-14 | no rectangle holds itself |
| RectangleMethods.CanHoldAsymmetric | chapter_05/methods/src/main.rs:12-14 | two rectangles never hold each other |
| RectangleMethods.CanHoldTransitive | chapter_05/methods/src/main.rs:12-14 | if `a` holds `b` and `b` holds `c`, then `a` holds `c` |
| RectangleMethods.CanHoldShrinksArea | chapter_05/methods/src/main.rs:8-14 | a held rectangle has a strictly smaller area, which fits in `u32` whenever the holder's does |
| RectangleMethods.SquareArea | chapter_05/methods/src/main.rs:16-21 | the area of `square(size)` is `size * size` |
| RectangleMethods.SquareCanHoldIff | chapter_05/methods/src/main.rs:12-21 | `square(a)` holds `square(b)` if and only if `a > b` |
| RectangleMethods.RectangleExamples | chapter_05/methods/src/main.rs:50-112 | the 50 by 30 `rect1` has area 1500, holds the 40 by 20 `rect2`, and neither it nor the 50 by 60 `rect3` holds the other; `square(30)` is 30 by 30 with area 900 |
| Structs.BuildUser | chapter_05/structs/src/main.rs:97-107 | `build_user` keeps the given email and username, is inactive, and has sign-in count 2 |
| Structs.UpdateIdentity | chapter_05/structs/src/main.rs:61-67 | the struct update sets the two named fields and takes `active` and `sign_in_count` from the base user |
| Structs.WithEmail | chapter_05/structs/src/main.rs:41 | assigning `email` changes it and keeps `username`, `active` and `sign_in_count` |
| Structs.BuildUserIsUpdateIff | chapter_05/structs/src/main.rs:97-107 | `build_user(e, u)` equals the struct update of `base` with `e`, `u` if and only if `base` is inactive with sign-in count 2 |
| Structs.UpdateKeepingUsernameIsWithEmail | chapter_05/structs/src/main.rs:41-67 | a struct update that keeps the username is the assignment of the email |
| Structs.StructsWalkthrough | chapter_05/structs/src/main.rs:32-67 | `user1` after the assignment, `user2` from `build_user` and `user3` from the struct update, field by field |

## Left out

- Console input and output of the Fibonacci calculator. The console is not modelled; `Session` takes the input lines as a sequence and returns the printed lines.
  - Printed lines are `Printed` values. `Render` gives their exact text, and `RenderInjective` shows that nothing is lost.
  - An input line is whatever one `read_line` call leaves in the buffer. `trim` removes the line terminator the same way it removes other whitespace.
- I/O errors of `read_line`, the cases where `expect("Failed to read line")` would abort. These are not modelled.
- End of input is not an I/O error: `read_line` then returns `Ok(0)` with an empty buffer, so `expect` does not abort. The model stops when its finite input runs out, leaving the session in the phase it reached. `EndOfInputAtIndexPromptLoops` and `EndOfInputAtAnswerStops` state what the program does from there: it loops forever at the index prompt and stops at the answer prompt.
- Fibonacci.NthFibonacci: it is defined on unbounded naturals. The `usize` behaviour is stated separately: the debug-build panic on overflow is the `Panicked` phase, and `NoOverflowIff` says when no addition overflows. The release-build wrap-around is not modelled, nor is a 32-bit `usize`.
- The exponential running time and the recursion depth of `nth_fibonacci`. Neither is a value, so neither is modelled. For a very large index the stack runs out before the first addition; the `Panicked` phase covers that abnormal end as well, since nothing is printed either way.
- RustPrelude.ParseUsize: it models `usize::from_str` on the trimmed line as an optional `+` followed by ASCII digits whose value is at most 2^64 - 1; the standard library's error kinds are not modelled.
- RustPrelude.NatToString: it models the `{}` rendering of unsigned integers only. Padding and other format options are not used by the program and are not modelled.
- StructExample.Area: it requires that `width * height` fits in `u32`. The overflowing case, a panic in debug builds and a wrap in release builds, is not modelled. The same holds for StructExample.AreaTuple, StructExample.AreaStruct and RectangleMethods.Rectangle.Area.
- RectangleMethods.Rectangle.Area: see the line above.
- Ownership and borrowing are compile-time rules, so they are not modelled. This covers moves, the rejected `s.clear()` while a slice is borrowed (chapter_04/slice_type/src/main.rs:91) and lifetimes. A slice is modelled as the value it denotes, not as a pointer and a length into its string, so aliasing is not modelled.
- SliceType.WordThenClear: the model keeps the first word as a copy, which, unlike the Rust borrow, could still be read after the `clear`; the borrow checker's rule that the slice must be dead before `s.clear()` (chapter_04/slice_type/src/main.rs:84-95) is not modelled.
- UTF-8: strings in the slice module are byte sequences. The char-boundary panic of `&s[a..b]` cannot occur where the scanners cut, which is just before an ASCII space. It is not modelled on other ranges.
- Printing to the console is not modelled. This covers the `println!` output of the slice, rectangle and user walkthroughs, the `{:?}` and `{:#?}` `Debug` output, and the `for e in slice` loop that only prints (chapter_04/slice_type/src/main.rs:132-134).
- The first, immutable `user1` (chapter_05/structs/src/main.rs:15-27) is not modelled. It is only printed, and the `let mut user1` that follows has the same fields.
- From chapter_05/structs/src/main.rs:73-77: the tuple structs `Color` and `Point`, which are declarations without behaviour; the comment on unit-like structs that follows them declares none.
- chapter_04/ownership/src/main.rs, chapter_04/ref_and_borrow/src/main.rs and chapter_06/enums/src/main.rs are not part of this model. They teach compile-time rules or declare types without logic.
