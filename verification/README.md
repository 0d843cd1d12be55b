# Beryl, modelled in Dafny

Beryl is a small scripting language written in C, together with a Python
script (`build.py`) that composes the compiler commands for its variants.
This project models the parts of it that are sequential integer,
byte-string and data-structure code, and proves what they promise.

- **Build script** (`build.dfy`). This covers collecting sources by
  extension, root-relative exclusions, the compiler argument vector, the
  release, debug, library and minimal-library recipes, the archive command,
  and the menu dispatch. The directory walk is an input list, and every
  command is returned instead of run.
- **Lexer** (`lexer.dfy`). `LexState` is a class holding the source, the
  position and the one-token lookahead buffer. `next_token` and its helpers
  are methods with loops, each proved equal to a specification function
  (`Next`) on the source bytes.
- **Newer runtime** (`beryl_*.dfy`, the runtime of `src/beryl.c`):
  - the temporary-buffer allocator and saturating reference counts
    (`BerylMem`);
  - the structural comparison, `cmp_len_strs`, `%N` formatting, strings and
    tags (`BerylValues`);
  - the open-addressing table (`BerylTable`) and growable arrays
    (`BerylArray`);
  - the variable stack, argument stack, hashed globals and error buffers
    (`BerylEnv`).

  Linear probing with wrap-around is defined once, generically, in `Probe`.
  The C globals become fields of classes, and C arrays become Dafny arrays.
- **Older runtime** (`interp_*.dfy`, the runtime of `src/interpreter.c`,
  which the libraries are written against):
  - `i_val_eq` and `i_val_cmp` (`IValues`);
  - the scope stack, `beryl_set_var`, the dynamic-type registry and the
    error and return buffers (`IEnv`);
  - arity checks, array indexing and argument binding of calls (`ICalls`).
- **Libraries** (`core_lib.dfy`, `common_lib.dfy`, `string_lib.dfy`,
  `ds_table.dfy`, `ds_lib.dfy`, `math_lib.dfy`). These cover:
  - checked integer arithmetic and comparison chains;
  - `if`, `for`, `assert`, `sizeof` and `return`;
  - `parse-int` and `int->str`, `rest:` and `mod:`, `max` and `min`,
    `switch` and `cat+`;
  - string search, substring and replace, with the growable byte buffer;
  - the hash table and the array operations of the data-structures library;
  - the saturating integer power.
- **Value printer** (`io_print.dfy`). `print_i_val` is a pure rendering
  function, with methods that build the text.

Fixed-width integer behaviour is explicit in `CTypes`:
- `long long` values are the subtype `i64`;
- `size_t` and `i_size` arithmetic wraps with `Wrap64` and `Wrap32`;
- C division and remainder truncate toward zero (`CDiv`, `CRem`);
- a plain `char` is read as a signed byte.

Three kinds of input are parameters rather than behaviour:
- whether an allocation succeeds is a boolean per operation;
- calls into script functions are pure functions from arguments to a
  result;
- the text of a floating-point number is a function from `real` to bytes.

## Model

| member | source | states |
|---|---|---|
| Build.PathJoin | build.py:12 | joining onto an absolute second component gives that component, as `os.path.join` does |
| Build.MatchedInMembers | build.py:9-15 | a path is collected from a directory exactly when it is the root joined with one of its files whose name ends with one of the extensions |
| Build.MatchedMembers | build.py:8-15 | the paths collected over the whole walk are exactly the members of the collected set |
| Build.MatchedInPrefix | build.py:9-14 | the paths from the first files of a directory come first among the paths from all of them |
| Build.MatchedPrefix | build.py:8-14 | the paths from the first directories of the walk come first among the paths of the whole walk |
| Build.GetAllIn | build.py:5-17 | `get_all_in` passes its assertion exactly when no full path is collected twice, and then returns exactly the set of matching paths |
| Build.AddFiles | build.py:9-15 | one directory's files keep the assertion passing exactly when the paths so far plus theirs repeat nothing, and the set then holds exactly those paths |
| Build.FirstExtension | build.py:10-15 | the extension loop finds a match, and stops at it, exactly when the name ends with some extension |
| Build.MatchedInStep | build.py:9-15 | one more file adds its joined path when it matches and nothing otherwise |
| Build.DuplicateFails | build.py:13 | a path that was already collected makes the whole walk's list repeat, so the assertion fails |
| Build.ResolveExcludes | build.py:20-23 | the resolved exclusions are exactly the given names joined under the source path |
| Build.Head | build.py:27-30 | the command starts with the compiler and the flags in order, and has one more word `-o<out>` exactly when an output is given |
| Build.BuildAllExcept | build.py:19-36 | fails exactly when the walk repeats a path; otherwise the command is the head followed by every collected source that is not excluded, each exactly once |
| Build.AppendSources | build.py:32-34 | after the head, the command lists every source that is not excluded exactly once and nothing else |
| Build.EnumeratesAppend | build.py:34 | appending a path that was not yet listed to a listing without repeats lists one more path |
| Build.BuildRelease | build.py:44-55 | the release build compiles all of `src` with the release flags into `out/interpreter.out`, with `-lm` after the sources, or stops when the walk repeats a path |
| Build.BuildDebug | build.py:57-68 | the debug build compiles all of `src` with the debug and sanitizer flags into `out/a.out`, with `-lm` after the sources |
| Build.Compile | build.py:45-55 | one compile step: the composed command, then `-lm` when the recipe links the math library, and nothing at all when the walk repeats a path |
| Build.Archive | build.py:85-89 | the archive command is `ar rcs lib.ar` followed by each object file found exactly once, then the header copy |
| Build.SetToSeq | build.py:85 | listing a set yields each member exactly once |
| Build.BuildLib | build.py:71-89 | the library build compiles `../src` without `main.c`, with `-c`, no `-o` word and `-lm`, then archives each object file found under `./` exactly once and copies the header |
| Build.BuildMinimalLib | build.py:91-118 | the minimal library excludes the nine listed files, adds `-DMINIMAL_BUILD`, does not add `-lm`, then archives each object file found under `./` exactly once and copies the header |
| Build.ExclusionIsRootRelative | build.py:20-34 | an exclusion names a path under the source root only: the same file name in a subdirectory is not excluded |
| Build.Lower | build.py:146 | lower-casing changes exactly the ASCII capitals and keeps the length |
| Build.Choose | build.py:134-147 | the menu answers `1` to `4` select release, debug, library and minimal library; `q` or `quit` in any case quits; anything else asks again |
| Build.QuitAnyCase | build.py:146 | the quit answer is exactly `q` or `quit` in any mix of cases |
| Build.Dispatch | build.py:123-147 | the single argument `d` runs the debug build at once; otherwise the menu repeats over the input lines until one selects or quits, or the input ends |
| Build.RunVariant | build.py:134-145 | each menu choice runs its own recipe: the release build compiles into `out/interpreter.out` with the release flags, the debug build into `out/a.out` with the sanitizer flags, the library builds compile with `-c` (the minimal one without the nine excluded files and without `-lm`), then archive each object file found under `./` exactly once and copy the header; a repeated path aborts |
| Lexer.LexErrStr | src/lexer.c:26-44 | every error code, known or not, has a message starting with `Lexing error: ` |
| Lexer.IsWhitespace | src/lexer.c:47-58 | every blank or line break is at or below the space byte |
| Lexer.IsOpChar | src/lexer.c:60-80 | every operator byte may also appear in a symbol and none is a digit |
| Lexer.SpecialChar | src/lexer.c:82-92 | exactly `(` and `)` are bracket tokens of their own, `(` the opening one, and neither is a blank |
| Lexer.IsValidSymbolChar | src/lexer.c:94-96 | letters and digits are symbol bytes; `,`, brackets and the space are not |
| Lexer.IsDigit | src/lexer.c:98-100 | a digit has a value from 0 to 9 and is neither a blank nor a bracket |
| Lexer.MatchKeyword | src/lexer.c:128-136 | the null kind exactly when no table entry spells the symbol; otherwise the kind of an entry that does |
| Lexer.MatchKeywordFromFinds | src/lexer.c:129-133 | the scan from an entry on finds a kind exactly when a later entry spells the symbol |
| Lexer.KeywordTable | src/lexer.c:12-22 | a symbol is a keyword exactly when it spells `let`, `function` or `with`, `do`, `end`, `=`, `global` or `...`, and each word gives its own token kind |
| Lexer.LexState.Init | src/lexer.c:305-311 | a fresh lexer starts at the first byte and its buffer holds the first token, already lexed |
| Lexer.LexState.SkipWhitespace | src/lexer.c:107-116 | skips blanks, newlines and `#` comments together, as far as the skipping function says |
| Lexer.LexState.ParseNumber | src/lexer.c:138-172 | lexes a number exactly as the token specification for numbers says and moves past it |
| Lexer.ScanDigits | src/lexer.c:141-149 | the integer loop stops at the end of the run of digits and `'`, with the wrapped value of those digits |
| Lexer.NumberRun | src/lexer.c:155-163 | the fraction loop stops at the end of the run of digits and `'` |
| Lexer.LexState.SkipBlanks | src/lexer.c:187-191 | skips blanks up to, and not including, a newline |
| Lexer.LexState.SkipWord | src/lexer.c:197-199 | skips the run of symbol characters |
| Lexer.LexState.SkipComment | src/lexer.c:203-214 | skips a `#` comment up to and including the closing `#`, or up to a newline |
| Lexer.LexState.LexString | src/lexer.c:223-238 | lexes a string literal exactly as the token specification for strings says |
| Lexer.LexState.LexSymbol | src/lexer.c:258-279 | lexes a symbol, operator or keyword exactly as the token specification for symbols says |
| Lexer.LexState.NextToken | src/lexer.c:174-280 | returns the token the specification `Next` finds from the current position, and moves past it; the `goto START` restarts are a loop |
| Lexer.LexState.LexToken | src/lexer.c:217-279 | the dispatch on brackets, strings, negative and plain numbers and symbols agrees with the specification |
| Lexer.LexState.Pop | src/lexer.c:286-292 | returns the buffered token and refills the buffer with the token after it; at end of input nothing moves |
| Lexer.LexState.Accept | src/lexer.c:294-303 | consumes the buffered token and hands it back exactly when its kind is the one asked for; otherwise nothing changes |
| Lexer.EofAtEnd | src/lexer.c:177-178 | at the end of input the token is end-of-file, of length 0, placed at the end |
| Lexer.EofIsFinal | src/lexer.c:177-178 | once end-of-file is reached, lexing again returns end-of-file again |
| Lexer.SkipWsStops | src/lexer.c:107-116 | after skipping, the next byte is neither a blank, nor a newline, nor `#` |
| Lexer.NewlinesCollapse | src/lexer.c:180-185 | a line-end token is one newline byte of length 1, and after it no blank, newline or comment is left, so blank lines collapse into one token |
| Lexer.QuoteAtSpec | src/lexer.c:225-229 | the closing-quote search stops at the first `"` after the start, or at the end |
| Lexer.StringLiteral | src/lexer.c:223-238 | a string token spans both quotes and its content is the bytes between them; without a closing quote it is the missing-terminator error, reaching the end of input |
| Lexer.SymEndSpec | src/lexer.c:259-262 | a symbol is the longest run of symbol characters |
| Lexer.SymbolClassification | src/lexer.c:258-279 | a symbol is an operator exactly when its first or last byte is an operator character, unless it is a keyword, which gives the keyword's kind |
| Lexer.NumValueIsDecimalMod | src/lexer.c:140-148 | the accumulated value is the decimal value of the digits, skipping `'`, modulo 2^64 |
| Lexer.NumEndSpec | src/lexer.c:141 | the number loop stops at the first byte that is neither a digit nor `'` |
| Lexer.IntegerLiteral | src/lexer.c:240-256 | an integer literal is an overflow error exactly when its wrapped value exceeds `I_INT_MAX`; otherwise it is the value, negated after a `-` |
| Lexer.Brackets | src/lexer.c:217-221 | `(` and `)` give one-byte bracket tokens |
| Lexer.CommentEndSpec | src/lexer.c:203-214 | a `#` comment ends just after the next `#`, or at the next newline, which stays |
| Lexer.Comments | src/lexer.c:194-215 | a `,` skips blanks and the next word, and a `#` skips the comment, before lexing goes on |
| Lexer.LexErrorsExplained | src/lexer.c:26-44 | every error token the lexer produces carries one of the three codes it can raise, so its message is never the catch-all |
| Lexer.Next | src/lexer.c:174-280 | the specification of `next_token`: the token read from a position ends inside the source, no earlier than it starts |
| BerylMem.TmpAllocator.constructor | src/beryl.c:242-245 | the shared 512-byte buffer starts free, with nothing on the heap |
| BerylMem.TmpAllocator.Talloc | src/beryl.c:273-279 | hands out the shared buffer, and marks it busy, exactly when fewer than 512 bytes are asked for and it is free; otherwise allocates on the heap, or gives null when that fails |
| BerylMem.TmpAllocator.Tfree | src/beryl.c:281-288 | freeing the shared buffer (which must be busy) marks it free; freeing a heap block removes that block; freeing null changes nothing |
| BerylMem.TmpAllocator.Realloc | src/beryl.c:249-271 | the shared buffer stays itself up to 512 bytes; beyond that its 512 bytes are copied to a new block of the new size and the buffer is free again, or null comes back and it stays busy; other pointers go to the reallocation callback |
| BerylMem.GetReferenceCounter | src/beryl.c:290-314 | only managed tables, arrays, objects and long managed strings or errors have a counter; inline strings and unmanaged values have none |
| BerylMem.RetainedValid | src/beryl.c:316-324 | retaining keeps every counter between 1 and `I_REFC_MAX` and frees nothing |
| BerylMem.RetainSaturates | src/beryl.c:321-322 | retaining a value whose counter is at `I_REFC_MAX` changes nothing |
| BerylMem.RetainThenRelease | src/beryl.c:316-340 | a retain below the maximum followed by one decrement restores the counts |
| BerylMem.RefHeap.constructor | src/beryl.c:290-385 | a fresh heap holds no counted values |
| BerylMem.RefHeap.GetRefcount | src/beryl.c:380-385 | the count reported is the counter, at least 1, or `I_REFC_MAX` for a value without one |
| BerylMem.RefHeap.Retain | src/beryl.c:316-324 | increments the value's counter unless it is at `I_REFC_MAX` or the value has none |
| BerylMem.RefHeap.RetainValues | src/beryl.c:326-329 | the heap becomes the one obtained by retaining each value once, in order |
| BerylMem.RetainedAllCounts | src/beryl.c:316-329 | after retaining a list of values each object's counter has grown by the number of values that refer to it, saturating at `I_REFC_MAX`; no object appears, disappears or changes what it holds |
| BerylMem.RetainThenReleased | src/beryl.c:316-373 | a release undoes a retain while the counter stays below `I_REFC_MAX`; a retain that reaches the maximum sticks |
| BerylMem.ReleasedAllCounterless | src/beryl.c:331-335 | releasing values that have no counter changes nothing |
| BerylMem.ReleasedAllLast | src/beryl.c:338-365 | releasing the last reference to distinct objects that hold nothing frees exactly those objects |
| BerylMem.RefHeap.Release | src/beryl.c:331-373 | the heap becomes exactly the one the release specification gives: unchanged without a counter or at `I_REFC_MAX`, one lower above one, and at one the value freed and then its table or array children released in turn; it fails exactly when the release reaches an object already freed |
| BerylMem.RefHeap.ReleaseValues | src/beryl.c:375-378 | the heap becomes the one obtained by releasing each value once, in order, and it fails exactly when one of those releases reaches a freed object |
| BerylValues.StrCmp | src/beryl.c:637-656 | the string comparison is 0 exactly for equal strings, and otherwise -1 or 1 |
| BerylValues.Cmp | src/beryl.c:606-682 | `beryl_val_cmp` answers -1, 0, 1 or 2 |
| BerylValues.ArrCmp | src/beryl.c:658-677 | the array comparison answers -1, 0, 1 or 2 |
| BerylValues.CmpZeroIffEqual | src/beryl.c:606-682 | the comparison is 0 exactly when the two values are equal and contain no number, object or other incomparable part |
| BerylValues.ArrCmpZeroIffEqual | src/beryl.c:658-677 | two arrays compare equal exactly when they are equal item by item and every item is comparable |
| BerylValues.CmpAntisymmetric | src/beryl.c:606-682 | swapping the operands keeps 2 and negates -1 and 1 |
| BerylValues.ArrCmpAntisymmetric | src/beryl.c:658-677 | swapping two arrays keeps 2 and negates -1 and 1 |
| BerylValues.StrCmpAntisymmetric | src/beryl.c:637-656 | swapping two strings negates their comparison |
| BerylValues.StrCmpPrefix | src/beryl.c:651-655 | a proper prefix compares as the smaller string (1: `b` is larger) |
| BerylValues.StrCmpFirstDifference | src/beryl.c:643-648 | at the first differing byte, the larger signed `char` wins: -1 when `a`'s is larger, else 1 |
| BerylValues.ArrCmpIncomparable | src/beryl.c:664-670 | an incomparable item after equal ones makes the whole arrays incomparable |
| BerylValues.CmpLenStrs | src/beryl.c:207-218 | `cmp_len_strs` is true exactly for equal byte strings |
| BerylValues.ValCmp | src/beryl.c:606-682 | the looping comparison returns exactly the comparison the specification defines |
| BerylValues.FlattenSnoc | src/beryl.c:114-137 | the printed output of one more emitted piece is the old output followed by that piece |
| BerylValues.PendingStep | src/beryl.c:130-132 | a byte that starts no directive extends the pending text run by itself |
| BerylValues.PlainStep | src/beryl.c:130-132 | a plain byte contributes exactly itself to the output |
| BerylValues.DirectiveStep | src/beryl.c:119-129 | `%` and the next byte contribute exactly the directive's output: the value for a digit below `n`, nothing otherwise |
| BerylValues.FlushPending | src/beryl.c:120-123 | flushing the pending run emits its bytes and no empty run |
| BerylValues.PrintDirective | src/beryl.c:119-129 | one directive is emitted as the specification says and the scan moves two bytes on |
| BerylValues.PlainByte | src/beryl.c:130-132 | a plain byte is added to the pending run, which starts at the first such byte |
| BerylValues.IValsPrintf | src/beryl.c:114-137 | `beryl_i_vals_printf` prints exactly the expansion of the format: text runs as they are, `%d` as value `d` when it exists, `%` and a non-digit as nothing |
| BerylValues.ExpandPlainText | src/beryl.c:114-137 | a format without `%` prints as itself |
| BerylValues.ExpandTrailingPercent | src/beryl.c:119 | a `%` that is the last byte is printed literally |
| BerylValues.NewString | src/beryl.c:684-707 | a string of the given length, copied from the source bytes when given; null only when a string too long for inline storage cannot be allocated |
| BerylValues.TagSource.constructor | src/beryl.c:414 | the tag counter starts at 0 |
| BerylValues.TagSource.NewTag | src/beryl.c:413-419 | each call gives the next tag number, and null once `BERYL_MAX_TAGS` tags exist |
| BerylTable.Hashable | src/beryl.c:747-760 | strings, tags and bools are the hashable types; numbers are not table keys in this model |
| BerylTable.HomeIn | src/beryl.c:809-810 | every hashable key's home slot lies inside the table |
| BerylTable.LookupAt | src/beryl.c:803-827 | in a well-formed table, looking up a stored key finds the value stored beside it |
| BerylTable.LookupAbsent | src/beryl.c:819-827 | a key stored in no slot is not found |
| BerylTable.LookupOther | src/beryl.c:853-854 | writing one slot leaves the lookup of every key not stored there, before or after, unchanged |
| BerylTable.CmpIsKeyEquality | src/beryl.c:796 | for strings, bools and tags, comparing to 0 is key equality |
| BerylTable.HashVal | src/beryl.c:763-788 | `hash_val`: bools as 0 or 1, strings by `h*7 + signed byte` in 64-bit arithmetic, tags as 0 |
| BerylTable.Table.Empty | src/beryl.c:871-877 | a table whose slots are all empty, with no pairs and nothing found |
| BerylTable.Table.SearchTable | src/beryl.c:790-801 | `search_table` returns the first slot in the range that is empty or holds the key, or nothing when none does |
| BerylTable.Table.TableGet | src/beryl.c:803-817 | `table_get` probes from the home slot to the end, then from 0 up to the home slot, and stops at the first empty slot or equal key: exactly the slot the probing specification gives |
| BerylTable.Table.IndexTable | src/beryl.c:819-827 | the value stored under the key, or null when the key is absent or cannot be hashed |
| BerylTable.WriteLookups | src/beryl.c:842-854 | writing a key into the slot its lookup ends at binds it to the value and leaves every other key's lookup unchanged |
| BerylTable.Table.Insert | src/beryl.c:829-857 | code 3 for an unhashable key; 1 for a full table, even when the key is present; 2 for a present key without `replace`, table unchanged; 0 exactly in the remaining case, where the key maps to the value, other keys keep theirs, and the count grows only for a new key |
| BerylTable.Table.StoreAt | src/beryl.c:842-854 | storing at the probed slot makes the key map to the value, keeps every other key's value, and counts a new key once |
| BerylTable.Table.FillAt | src/beryl.c:850-854 | filling the empty probed slot adds the pair there, changes nothing else, and the key was absent before |
| BerylTable.Table.IterTable | src/beryl.c:967-985 | the iterator returns the next occupied slot after the current one, or nothing when there is none or the table is empty |
| BerylTable.LookupAbsent2 | src/beryl.c:842-851 | when the probe for a key ends at an empty slot, the key is stored nowhere |
| BerylTable.Table.ShouldGrow | src/beryl.c:893-897 | when the sum and its 4/3 padding fit in 32 bits, a table without room for the extra keys must grow, and one that need not grow has room for them |
| BerylTable.ShouldGrowMeansRoom | src/beryl.c:893-897 | a table that need not grow has room for the extra pairs |
| BerylTable.NewTable | src/beryl.c:859-878 | with padding the capacity is `cap*3/2` in 32-bit arithmetic, null when that wraps below `cap`; null when allocation fails; otherwise every slot is empty |
| BerylTable.PaddingGrows | src/beryl.c:861-862 | when `cap*3` does not wrap, padding never shrinks the capacity |
| BerylArray.GrownLarger | src/beryl.c:944-946 | when `cap*3` does not wrap, the grown capacity `cap*3/2+1` exceeds the old one |
| BerylArray.BArray.Filled | src/beryl.c:908-919 | an array of the given capacity holding the given items |
| BerylArray.BArray.Push | src/beryl.c:937-965 | push fails exactly when the array is full and either growth wraps or allocation fails, changing nothing; otherwise the item is appended after the unchanged items, in a new buffer of capacity `cap*3/2+1` when it was full |
| BerylArray.NewArray | src/beryl.c:899-920 | capacity `fit_for`, or `fit_for*3/2+1` when padded; null exactly when padding wraps or allocation fails; the items are the first `len` given, or nulls |
| BerylTable.StrHash | src/beryl.c:773-781 | the string hash `h*7 + signed byte`, taken modulo 2^64, fits in a `size_t` |
| BerylTable.SlotFor | src/beryl.c:803-817 | the slot the probe settles on is empty or holds the key |
| BerylEnv.GlobalSlot | src/beryl.c:498-525 | the slot `index_globals` settles on is empty or holds the name |
| BerylEnv.GlobalHomeIn | src/beryl.c:501-502 | the home slot of every name lies inside the globals table |
| BerylEnv.GlobalLookupAt | src/beryl.c:527-543 | in well-formed globals, looking up a stored name finds its entry |
| BerylEnv.GlobalLookupOther | src/beryl.c:545-565 | changing one slot that holds neither the name before nor after leaves that name's lookup unchanged |
| BerylEnv.Env.constructor | src/beryl.c:434-439 | an empty stack at top level, and no global is bound |
| BerylEnv.Env.PushStack | src/beryl.c:453-461 | push fails exactly when the stack is full, changing nothing; otherwise the entry is appended |
| BerylEnv.Env.BindName | src/beryl.c:463-466 | binds the name as a top-level entry on the stack, failing only on a full stack |
| BerylEnv.Env.EnterScope | src/beryl.c:468-472 | the new scope's base is the current top; the previous base is returned for leaving |
| BerylEnv.Env.LeaveScope | src/beryl.c:478-484 | the scope's entries are popped, their values released from the top down, and the previous base restored |
| BerylEnv.Env.GetLocal | src/beryl.c:490-496 | the topmost entry of the current scope with the name, or none when the scope has none |
| BerylEnv.Env.IndexGlobals | src/beryl.c:498-525 | the slot found by probing from the name's home to the end, then from 0, equals the specification's probe |
| BerylEnv.Env.SearchGlobals | src/beryl.c:503-519 | the first slot in the range that is empty or holds the name, or none |
| BerylEnv.Env.GetGlobal | src/beryl.c:527-543 | the topmost stack entry with the name that the current namespace can see; failing that the globals entry; none when neither exists |
| BerylEnv.Env.SetVar | src/beryl.c:545-565 | fails when the globals are full for the name or the bound variable is constant; otherwise binds or rebinds the name, keeping its namespace when it existed, and no other name changes |
| BerylEnv.HashName | src/beryl.c:501 | the hash of a name is the string hash of the tables |
| BerylEnv.Overlap | src/beryl.c:445-451 | two namespaces overlap when one lies inside the other: every namespace overlaps itself, and overlapping namespaces of the same size are the same |
| BerylEnv.OverlapSymmetric | src/beryl.c:445-451 | namespace overlap is symmetric |
| BerylEnv.ArgStack.constructor | src/beryl.c:567-572 | an empty argument stack |
| BerylEnv.ArgStack.SaveArgState | src/beryl.c:585-587 | the saved state is the height of the live argument stack, which `RestoreArgState` returns to |
| BerylEnv.ArgStack.PushArg | src/beryl.c:575-583 | push fails exactly on a full argument stack, changing nothing; otherwise the value is appended |
| BerylEnv.ArgStack.RestoreArgState | src/beryl.c:585-595 | the stack returns to the saved height, and the popped values are released top down when asked |
| BerylEnv.ErrState.constructor | src/beryl.c:36-38 | no stack trace and no blamed arguments |
| BerylEnv.ErrState.PushStackTrace | src/beryl.c:40-46 | a trace entry is appended unless the trace is full; blamed arguments unchanged |
| BerylEnv.ErrState.BlameArg | src/beryl.c:64-69 | the value is added to the blamed arguments unless there are already `MAX_BLAMED`; the trace unchanged |
| BerylEnv.ErrState.ClearErr | src/beryl.c:71-77 | trace and blamed arguments become empty, and the blamed values are released |
| IValues.ItemsEqAt | src/interpreter.c:437-449 | two arrays of one length are equal exactly when their items are pairwise equal |
| IValues.IEqSymmetric | src/interpreter.c:412-460 | `i_val_eq` is symmetric |
| IValues.IEqReflexive | src/interpreter.c:412-460 | a value equals itself exactly when it holds no error, return marker or dynamic-type value, the kinds `i_val_eq` never reports equal |
| IValues.IEqTransitive | src/interpreter.c:412-460 | `i_val_eq` is transitive |
| IValues.IEqIsEquality | src/interpreter.c:412-460 | for values without those kinds and without script functions (compared by start only), `i_val_eq` is structural equality |
| IValues.ICmp | src/interpreter.c:463-493 | `i_val_cmp` answers -1, 0, 1 or 2, and 2 exactly when the two values are not both ints or both floats |
| IValues.CmpMeansOrder | src/interpreter.c:463-493 | for comparable values, 0 means equal numbers (and `i_val_eq`), 1 means the first is smaller, -1 the first is larger |
| IValues.CmpAntisymmetric | src/interpreter.c:463-493 | swapping the operands negates the answer and keeps 2 |
| IValues.CmpTransitive | src/interpreter.c:463-493 | "less than" by `i_val_cmp` is transitive |
| IEnv.FindGlobal | src/interpreter.c:586-596 | the topmost entry with the name visible from the current namespace, or none when there is none |
| IEnv.FindGlobalIs | src/interpreter.c:586-596 | the topmost accepting entry is the one found |
| IEnv.FindGlobalSnoc | src/interpreter.c:388-396 | pushing an entry makes it the answer for its name when visible, and changes nothing otherwise |
| IEnv.FindGlobalKeys | src/interpreter.c:598-613 | changing values and constness leaves every lookup unchanged |
| IEnv.Env.constructor | src/interpreter.c:374-378 | an empty stack at top level |
| IEnv.Env.PushStack | src/interpreter.c:388-396 | push fails exactly on a full stack, changing nothing; otherwise the entry is appended |
| IEnv.Env.EnterScope | src/interpreter.c:398-402 | the new scope's base is the current top; the old base is returned |
| IEnv.Env.LeaveScope | src/interpreter.c:404-410 | the scope is popped with its values released top down, and the old base restored |
| IEnv.Env.GetLocal | src/interpreter.c:578-584 | the topmost entry of the current scope with the name, or none |
| IEnv.Env.GetGlobal | src/interpreter.c:586-596 | the whole stack is searched from the top for a visible entry with the name |
| IEnv.Env.SetVar | src/interpreter.c:598-613 | fails when the bound variable is constant or, for a new name, the stack is full; otherwise rebinds the variable in place or pushes a new one in the current namespace, after which the name is found with the new value, and no other name's lookup changes |
| IEnv.TypeRegistry.constructor | src/interpreter.c:229-232 | no dynamic types loaded |
| IEnv.TypeRegistry.GetDynamicType | src/interpreter.c:234-242 | a type has a dynamic description exactly when it is one of the loaded ids after the static types |
| IEnv.TypeRegistry.AddType | src/interpreter.c:358-372 | returns the null type exactly when the registry is full; otherwise the next id, which then describes the new type, all other ids unchanged |
| IEnv.DynamicTypeIds | src/interpreter.c:234-242 | static type ids have no description, and the i-th loaded type has id `N_STATIC_TYPES + i` |
| IEnv.ErrBuffers.constructor | src/interpreter.c:496-515 | empty trace and error arguments, and no return value |
| IEnv.ErrBuffers.Blame | src/interpreter.c:500-529 | a trace entry is appended unless the trace holds `STACK_TRACE_MAX` entries |
| IEnv.ErrBuffers.BlameArg | src/interpreter.c:518-523 | the value is appended to the error arguments unless there are already four |
| IEnv.ErrBuffers.ClearStackTrace | src/interpreter.c:532-540 | trace and error arguments become empty; the arguments are released and their slots nulled |
| IEnv.ErrBuffers.SetReturnVal | src/interpreter.c:651-656 | only the first return value set since the last was taken is kept |
| IEnv.ErrBuffers.TakeReturn | src/interpreter.c:1118-1121 | a return marker is replaced by the stored return value, which is cleared; other results pass through |
| ICalls.CheckArity | src/interpreter.c:744-760 | an external function accepts exactly `arity` arguments when the arity is not negative, and at least `-arity-1` otherwise; too many is reported before too few |
| ICalls.CallArray | src/interpreter.c:771-791 | calling an array with one in-range int index yields that item; any other number of arguments, a non-int index or an index out of range is the matching error |
| ICalls.BindPlain | src/interpreter.c:676-717 | with named parameters only: binding succeeds exactly when the parameter names are distinct and the argument count matches, binding each name to its argument; otherwise it fails with too few or too many arguments or a duplicate name |
| ICalls.BindVariadic | src/interpreter.c:680-692 | with `varargs` last, the leading parameters bind to the leading arguments and `varargs` binds to an array of the rest |
| ICalls.Unwind | src/interpreter.c:404-410 | leaving the function's scope restores the caller's stack and base |
| ICalls.BindNext | src/interpreter.c:676-712 | one parameter step of `call_internal_fn` pushes the binding, stops with the pending error after unwinding, or ends the parameter list, exactly as the binding specification says |
| ICalls.BindArguments | src/interpreter.c:662-717 | refuses at the recursion limit; otherwise, when binding fails, returns its error with the stack unchanged, and when it succeeds opens a scope holding one non-constant entry per binding in the function's namespace |
| IoPrint.Decimal | src/io.c:102-103 | a tag prints as at least one digit |
| IoPrint.PrintIVal | src/io.c:40-116 | printing a value writes exactly its rendering: words for null, bools and functions, `Error: ` before an error's text, tags and objects in parentheses |
| IoPrint.PrintArray | src/io.c:86-95 | an array prints as its items' renderings between parentheses, separated by single spaces |
| IoPrint.PrintTable | src/io.c:68-84 | a table prints as its pairs between braces, in iteration order, separated by single spaces |
| IoPrint.PrintPair | src/io.c:73-79 | a pair prints as key and value between parentheses |
| IoPrint.RenderWords | src/io.c:43-100 | the fixed words for null, bools, functions, the empty array and the empty table |
| IoPrint.JoinedLength | src/io.c:88-93 | joining n texts adds n-1 separators |
| IoPrint.JoinedAppend | src/io.c:88-93 | joining two non-empty lists is joining each with one space between |
| IoPrint.NetAppend | src/io.c:68-113 | the parenthesis balance of a concatenation is the sum of the balances |
| IoPrint.ParenFreeNet | src/io.c:59-66 | text without parentheses is balanced |
| IoPrint.RenderBalanced | src/io.c:40-116 | when strings, errors, object names and numbers contain no parentheses, every printed value has balanced parentheses |
| IoPrint.ArrayBalanced | src/io.c:86-95 | an array of such values prints balanced |
| IoPrint.PairBalanced | src/io.c:73-79 | a pair of such values prints balanced |
| IoPrint.TableBalanced | src/io.c:68-84 | a table of such values prints balanced |
| DsTable.Hashable | src/libs/datastructures_lib.c:20-30 | ints, bools and strings are the hashable types, and no other type is |
| DsTable.StrHash | src/libs/datastructures_lib.c:41-49 | the string hash fits in an `i_size` |
| DsTable.Hash | src/libs/datastructures_lib.c:32-56 | every hash fits in an `i_size` |
| DsTable.HashInts | src/libs/datastructures_lib.c:34-39 | a non-negative int hashes to itself, a negative one to `I_SIZE_MAX` minus its magnitude, bools to 0 and 1 |
| DsTable.HashIVal | src/libs/datastructures_lib.c:32-56 | `hash_i_val` computes the hash of the specification, the string loop included |
| DsTable.HashBytes | src/libs/datastructures_lib.c:41-49 | the string loop computes `h*7 + byte` modulo 2^32 over every byte |
| DsTable.HashStep | src/libs/datastructures_lib.c:46-47 | one loop step extends the hash of the prefix by one byte |
| DsTable.SlotFor | src/libs/datastructures_lib.c:61-89 | the slot `find_in_table` settles on is empty or holds the key |
| DsTable.LookupAt | src/libs/datastructures_lib.c:91-103 | in a well-formed table every stored key is found with its value |
| DsTable.LookupAbsent | src/libs/datastructures_lib.c:91-103 | a key stored nowhere is not found |
| DsTable.LookupSome | src/libs/datastructures_lib.c:91-103 | a key is found exactly when it is not null and is stored in some slot |
| DsTable.LookupOther | src/libs/datastructures_lib.c:147-158 | changing a slot holding neither the key before nor after leaves the key's lookup unchanged |
| DsTable.LookupEndsEmpty | src/libs/datastructures_lib.c:72-73 | when the probe stops at an empty slot, the key is stored nowhere |
| DsTable.LookupFull | src/libs/datastructures_lib.c:88 | in a full table an absent key has no slot, so insertion reports no space |
| DsTable.CountFull | src/libs/datastructures_lib.c:88 | when every slot is counted as occupied, every slot holds a key |
| DsTable.OccupiedCount | src/libs/datastructures_lib.c:105-122 | the number of occupied slots is the table's length |
| DsTable.OccupiedPrefix | src/libs/datastructures_lib.c:110-121 | the occupied slots of a prefix are a prefix of the occupied slots |
| DsTable.VisitSlots | src/libs/datastructures_lib.c:105-122 | the walk visits occupied slots in order, tells the callback which one is last, stops right after the first callback asking to stop, and otherwise visits them all |
| DsTable.VisitNext | src/libs/datastructures_lib.c:111-120 | one slot step extends the visited pairs by that slot when it is occupied |
| DsTable.FirstInAppend | src/libs/datastructures_lib.c:535-558 | the first binding of a key in two lists is the first list's, else the second's |
| DsTable.FirstInOccupiedNone | src/libs/datastructures_lib.c:105-122 | a key stored nowhere is in no visited pair |
| DsTable.FirstInOccupiedAt | src/libs/datastructures_lib.c:105-122 | a key stored once is visited with its value |
| DsTable.FirstInOccupied | src/libs/datastructures_lib.c:105-122 | the pairs the walk visits give the same lookup as the table |
| DsTable.Table.Empty | src/libs/datastructures_lib.c:135-141 | a table of the given capacity with every slot empty and nothing found |
| DsTable.Table.SearchRange | src/libs/datastructures_lib.c:72-86 | the first slot in the range that is empty or holds the key, or none |
| DsTable.Table.FindInTable | src/libs/datastructures_lib.c:61-89 | `find_in_table` returns the probe's slot: from the home slot to the end, then from the start, stopping at an empty slot or the key; none in a zero-capacity or full table |
| DsTable.Table.IndexTable | src/libs/datastructures_lib.c:91-103 | the value stored under the key, none for an unhashable or absent key |
| DsTable.Table.TableInsert | src/libs/datastructures_lib.c:147-158 | 1 when the key is present, 2 when it is absent and the table full, both changing nothing; 0 otherwise, after which the key maps to the value, the length grew by one and no other key changed |
| DsTable.Table.StoreNew | src/libs/datastructures_lib.c:153-156 | filling the probed empty slot binds the key and changes no other key |
| DsTable.Table.TableForeach | src/libs/datastructures_lib.c:105-122 | `table_foreach` visits the occupied slots in slot order, flags the last by count, and stops right after the first callback asking to stop |
| DsTable.Table.TableCall | src/libs/datastructures_lib.c:581-594 | calling a table with one key yields its value or "Index out of bounds"; any other count is an error |
| DsTable.Table.InsertEach | src/libs/datastructures_lib.c:528-533 | inserting pairs one by one keeps earlier bindings: afterwards each key maps to its old value, else its first value in the pairs |
| DsTable.Table.InsertDistinct | src/libs/datastructures_lib.c:300-307 | filling an empty table succeeds exactly when the keys are distinct, and then the table maps each key to its value |
| DsTable.InsertTables | src/libs/datastructures_lib.c:554-555 | after inserting the pairs of `a`, then `b`, each key maps to its value in `a`, else in `b` |
| DsTable.CreateEmptyTable | src/libs/datastructures_lib.c:126-142 | capacity `fit_for*3/2` in 32-bit arithmetic; null exactly when that wraps below `fit_for` or allocation fails; otherwise empty |
| DsTable.CapacityFits | src/libs/datastructures_lib.c:127-129 | without wrap-around the capacity fits `fit_for` entries |
| DsTable.AsPairs | src/libs/datastructures_lib.c:300-301 | arguments are read as key, value, key, value |
| DsTable.TableConstruct | src/libs/datastructures_lib.c:286-310 | an odd count, too many arguments, failed allocation and a repeated key are each reported; otherwise a new table of `n/2` pairs mapping each key to its value |
| DsTable.FirstInHas | src/libs/datastructures_lib.c:300-307 | a key has a first binding exactly when some pair has it |
| DsTable.FirstInMissing | src/libs/datastructures_lib.c:300-307 | adding an unbound key keeps the keys distinct |
| DsTable.InsertEachStep | src/libs/datastructures_lib.c:528-533 | one insertion extends the "old value, else first in the pairs" invariant by one pair |
| DsTable.Union | src/libs/datastructures_lib.c:535-558 | refuses when the lengths' sum passes `I_SIZE_MAX`, when the padded capacity wraps or when allocation fails, and otherwise builds a new table in which each key maps to its value in the first table, else in the second |
| DsTable.UnionTable | src/libs/datastructures_lib.c:549-557 | the new table is null exactly when its capacity wraps or allocation fails; otherwise it holds the first table's bindings, then the second's new keys |
| DsTable.UnionPairs | src/libs/datastructures_lib.c:554-555 | the pairs the two walks visit number the two lengths, have hashable keys, and give the preferred lookup |
| DsTable.OccupiedKeys | src/libs/datastructures_lib.c:105-122 | every visited key is hashable |
| DsTable.FirstInUnhashable | src/libs/datastructures_lib.c:91-93 | an unhashable key has no binding among hashable keys |
| DsTable.ForeachTable | src/libs/datastructures_lib.c:431-474 | `foreach-in` on a table calls the function on each pair in slot order and yields the last result, stopping at the first error; null for an empty table |
| DsTable.RunPrefix | src/libs/datastructures_lib.c:431-445 | stopping the walk at the first error gives the same result as the whole run |
| DsLib.ArrBuf.constructor | src/interpreter.c:157-175 | a fresh buffer of the given capacity with one reference |
| DsLib.CopyItems | src/interpreter.c:157-175 | the items are copied to the given position and nothing else in the buffer changes |
| DsLib.ManagedArray | src/interpreter.c:157-175 | `i_val_managed_array`: null exactly when allocation fails; otherwise a fresh array of the given length and capacity holding the given items |
| DsLib.ArrayConstruct | src/libs/datastructures_lib.c:312-319 | too many arguments and failed allocation are reported; otherwise a fresh array holding exactly the arguments |
| DsLib.PushCap | src/libs/datastructures_lib.c:344 | the grown capacity `max(len+1, len*3/2)` exceeds the length and fits in an `i_size` |
| DsLib.PushCapGrows | src/libs/datastructures_lib.c:344 | from length 2 on the grown capacity is `len*3/2` |
| DsLib.Push | src/libs/datastructures_lib.c:327-355 | `push:` refuses a non-array and a full length; reuses the buffer when it is unshared with spare room, else copies into a new buffer of the grown capacity (out of memory when that fails, the original untouched); the result holds the old items then the new one |
| DsLib.Pop | src/libs/datastructures_lib.c:357-383 | `pop` refuses a non-array and an empty array; otherwise yields all items but the last, in place when unshared, else in a new buffer |
| DsLib.Join | src/libs/datastructures_lib.c:385-416 | `join:` refuses non-arrays and a length past `I_SIZE_MAX`; otherwise a fresh array holding the first array's items then the second's |
| DsLib.Peek | src/libs/datastructures_lib.c:418-429 | `peek` yields the last item, or an error for a non-array or an empty array |
| DsLib.MapAll | src/libs/datastructures_lib.c:160-202 | mapping ends with as many results as items, or with an error |
| DsLib.MapAllItems | src/libs/datastructures_lib.c:160-202 | mapping succeeds exactly when no call errs, and then the i-th result is the call on the i-th item |
| DsLib.MapExtend | src/libs/datastructures_lib.c:169-177 | one more item extends the mapped prefix by its result, or stops with its error |
| DsLib.MapFirstError | src/libs/datastructures_lib.c:171-174 | the first erring call's error is the result of the whole map |
| DsLib.MapRaisedSticks | src/libs/datastructures_lib.c:171-174 | once a prefix has erred, the whole map yields that error |
| DsLib.FilterAll | src/libs/datastructures_lib.c:215-271 | filtering keeps at most the items there are, or ends with an error |
| DsLib.FilterAllKeeps | src/libs/datastructures_lib.c:215-271 | filtering succeeds exactly when every call yields a bool, and then keeps exactly the items whose call yields true |
| DsLib.FilterExtend | src/libs/datastructures_lib.c:225-242 | one more item: its error, "Filter result must be boolean" for a non-bool, the item kept on true, dropped on false |
| DsLib.FilterFirstError | src/libs/datastructures_lib.c:228-237 | the first non-bool result decides the error of the whole filter |
| DsLib.FilterRaisedSticks | src/libs/datastructures_lib.c:228-237 | once a prefix has erred, the whole filter yields that error |
| DsLib.FilterAllTrue | src/libs/datastructures_lib.c:239-243 | when every call yields true the filter keeps every item |
| DsLib.MapInPlace | src/libs/datastructures_lib.c:166-177 | the unshared branch of `map` computes the map of the items, overwriting them on success, and touches nothing past the length |
| DsLib.MapInto | src/libs/datastructures_lib.c:179-197 | the copying branch of `map` fills the new buffer with the map of the source |
| DsLib.Map | src/libs/datastructures_lib.c:160-213 | `map` refuses a non-array; otherwise yields the first error or an array of the results, in place when unshared, else in a new buffer (out of memory when that fails) that leaves the original untouched |
| DsLib.FilterInPlace | src/libs/datastructures_lib.c:220-244 | the unshared branch of `filter` compacts the kept items to the front, or yields the error, and touches nothing past the length |
| DsLib.FilterStep | src/libs/datastructures_lib.c:224-243 | one step of the compaction: the call's result, and either the error of the filter so far or the kept prefix extended |
| DsLib.Keep | src/libs/datastructures_lib.c:239-243 | keeping an item writes it right after the kept prefix, leaving the unread tail alone |
| DsLib.FilterInto | src/libs/datastructures_lib.c:245-265 | the copying branch of `filter` writes the kept items into the new buffer |
| DsLib.Filter | src/libs/datastructures_lib.c:215-282 | `filter` refuses a non-array; otherwise yields the first error, a non-bool result's error, or an array of the kept items, in place when unshared, else in a new buffer |
| DsLib.Indices | src/libs/datastructures_lib.c:492-494 | the arguments passed are 0 to n-1 in order |
| DsLib.ArrayOf | src/libs/datastructures_lib.c:476-507 | `arrayof` refuses a non-int and a negative size, reports failed allocation, and otherwise yields the first error or the array of the function at 0 to n-1 |
| DsLib.LastOrError | src/libs/datastructures_lib.c:455-464 | with no error before the last item, the result is the last call's |
| DsLib.LastOrErrorFirst | src/libs/datastructures_lib.c:459-460 | the first erring call's error is the result |
| DsLib.LastOrErrorSticks | src/libs/datastructures_lib.c:459-460 | once a prefix yields an error, the whole walk yields it |
| DsLib.ForeachItems | src/libs/datastructures_lib.c:455-464 | the array walk of `foreach-in` yields the last result or the first error |
| DsLib.ForeachIn | src/libs/datastructures_lib.c:447-474 | `foreach-in` refuses anything but arrays and tables; on an array yields the last result or first error; on a table the run over its pairs in slot order |
| DsLib.In | src/libs/datastructures_lib.c:509-526 | `in?` on an array is true exactly when some item is `i_val_eq` to the value; on a table exactly when the key is found |
| DsLib.InIsMembership | src/libs/datastructures_lib.c:513-517 | for plain values `in?` on an array is sequence membership |
| DsLib.UnionCallback | src/libs/datastructures_lib.c:535-558 | `union:` checks both arguments are tables; "Resulting table would be too large" exactly when the lengths' sum passes `I_SIZE_MAX`, otherwise "Out of memory" exactly when the padded capacity wraps or allocation fails, otherwise a fresh table preferring the first table's bindings |
| CoreLib.SafeSum | src/libs/core_lib.c:5-23 | the sum is reported exactly when it fits in 64 bits, and is then the true sum |
| CoreLib.SafeSub | src/libs/core_lib.c:25-31 | the difference is reported exactly when the subtrahend is not `I_INT_MIN` and it fits, and is then the true difference |
| CoreLib.SafeSubRejectsMin | src/libs/core_lib.c:26-29 | `-1 - I_INT_MIN` fits yet is refused |
| CoreLib.SafeDiv | src/libs/core_lib.c:33-40 | only `I_INT_MIN / -1` is refused; otherwise the quotient truncates toward zero: quotient times divisor plus a remainder smaller than the divisor, carrying the dividend's sign, gives the dividend |
| CoreLib.QuotientFits | src/libs/core_lib.c:33-40 | every other truncated quotient fits in 64 bits |
| CoreLib.DivTest | src/libs/core_lib.c:64-68 | `m / x < y` exactly when `x*y > m` |
| CoreLib.SafeMul | src/libs/core_lib.c:42-74 | the product is reported exactly when a factor is 0 or both magnitudes are representable and their product is at most `I_INT_MAX`, and is then the true product |
| CoreLib.MagnitudeTest | src/libs/core_lib.c:50-73 | the unsigned overflow test, with magnitudes taken as the code takes them, fails exactly when the product does not fit, and otherwise the signed result is the product |
| CoreLib.Huge | src/libs/core_lib.c:51-52 | a factor at or below `-I_INT_MAX` converted to unsigned makes any nonzero product fail the test |
| CoreLib.SafeMulRejectsNearMin | src/libs/core_lib.c:51-52 | `-I_INT_MAX * 1` fits yet is refused |
| CoreLib.ArithCallback | src/libs/core_lib.c:76-127 | the loop of `+`, `-`, `*`, `/` computes the left fold of the specification: ints with checked operations until a float appears, then floats; a non-number, an overflow or a zero divisor stops it with its error; unary `-` negates |
| CoreLib.FoldAdd | src/libs/core_lib.c:76-124 | adding ints yields their sum exactly when every running sum fits, and otherwise the overflow error |
| CoreLib.AddInts | src/libs/core_lib.c:124 | `+` over ints is the sum, or the overflow error when a running sum leaves 64 bits |
| CoreLib.FoldFloat | src/libs/core_lib.c:100-112 | the result is a float exactly when the start or some operand is |
| CoreLib.ArithFloat | src/libs/core_lib.c:117-119 | a successful arithmetic call yields a float exactly when some argument is a float |
| CoreLib.CmpChain | src/libs/core_lib.c:214-233 | a comparison chain is true exactly when every adjacent pair has one type and satisfies the relation; false when the first failing pair has one type; the mixed-type error when it does not |
| CoreLib.FirstFailure | src/libs/core_lib.c:221-225 | after a failing pair no longer prefix satisfies the chain |
| CoreLib.LessChainIncreasing | src/libs/core_lib.c:230 | a true `<` chain is strictly increasing between any two positions |
| CoreLib.LenientEq | src/libs/core_lib.c:235-244 | lenient equality is true exactly when every argument has the first's type and equals it |
| CoreLib.LenientAllPairs | src/libs/core_lib.c:235-244 | then all arguments are pairwise equal |
| CoreLib.EqChainIsLenient | src/libs/core_lib.c:228 | a true `=` chain is the same as lenient equality |
| CoreLib.EqChainPrefix | src/libs/core_lib.c:228 | in a true `=` chain every argument equals the first |
| CoreLib.IfCallback | src/libs/core_lib.c:129-147 | `if` calls the branch after the first true condition, the trailing else branch when all conditions are false, null when there is none, and stops with the error at the first non-bool condition reached |
| CoreLib.VisitBound | src/libs/core_lib.c:173 | the k-th visited index is below the bound exactly when k is at most the last visit number |
| CoreLib.ForFromLast | src/libs/core_lib.c:171-178 | without errors the loop from any visit on yields the call at the last index below the bound |
| CoreLib.ForResult | src/libs/core_lib.c:170-180 | without errors `for` yields the call at the last visited index, or null when it visits nothing |
| CoreLib.ForStopsAtError | src/libs/core_lib.c:175-176 | an erring call ends the loop with its error |
| CoreLib.ForCallback | src/libs/core_lib.c:149-181 | `for` checks the argument count and integer bounds; the step is the given one, else 1, or -1 when `from > to`; the loop's outcome is what the loop specification gives for every step, the `i += by` addition wrapping |
| CoreLib.VisitClosed | src/libs/core_lib.c:173 | the k-th index the loop visits is `from + k*step` wrapped to 64 bits |
| CoreLib.VisitPeriodic | src/libs/core_lib.c:173 | the visited indices repeat after 2^64 visits |
| CoreLib.ForIterAt | src/libs/core_lib.c:173-178 | until the first visit that stops, the loop carries on from each visit with the previous call's result |
| CoreLib.ForFirstStop | src/libs/core_lib.c:172-180 | the first visit whose index reaches the bound ends the loop with the last call's result (null when there was none), and the first erring call ends it with that error |
| CoreLib.ForDiverges | src/libs/core_lib.c:173-180 | the loop never ends exactly when every visited index stays below the bound and no call errs |
| CoreLib.ForNoWrap | src/libs/core_lib.c:173-180 | with a positive step whose addition cannot wrap, the loop gives the plain loop's result over `from, from+step, ...` |
| CoreLib.ForDownBelow | src/libs/core_lib.c:173 | with a step of zero or less, every index before the first wrap is `from + k*step` and below the bound, so only an erring call can end the loop there |
| CoreLib.ForCountsDown | src/libs/core_lib.c:173-176 | `for 5 10 -1 f` ends with `f`'s error at 4 when `f` succeeds at 5 |
| CoreLib.AssertCallback | src/libs/core_lib.c:246-256 | null exactly when every argument is true; otherwise the error of the first non-true argument, which depends on whether it is a bool |
| CoreLib.Sizeof | src/libs/core_lib.c:308-330 | the byte length of any string or array an `i_size` can measure, the size a type's interface reports, or 1 when it has none; "Size too large" only for a string or array longer than `I_INT_MAX`, which no `i_size` length reaches |
| CoreLib.ReturnCallback | src/libs/core_lib.c:337-360 | with no argument, one argument or a true condition, the return marker and the value kept as return value unless one is pending; a false condition gives null; a non-bool condition and three or more arguments are errors |
| CommonLib.JoinedLen | src/libs/common_lib.c:33-59 | the concatenation is as long as the total of the lengths |
| CommonLib.CopyInto | src/libs/common_lib.c:53 | `memcpy` places the string at the position and keeps what precedes it |
| CommonLib.TotalLength | src/libs/common_lib.c:35-41 | the first loop of `concat` fails exactly when some argument is not a string, and otherwise sums the lengths |
| CommonLib.Concat | src/libs/common_lib.c:33-59 | `concat` refuses non-strings, a total past `I_SIZE_MAX` and failed allocation; otherwise yields the arguments' bytes in order |
| CommonLib.FillJoined | src/libs/common_lib.c:50-56 | the copy loop fills the new string with the concatenation |
| CommonLib.JoinedStep | src/libs/common_lib.c:52-54 | one more argument extends the concatenation and its length by that string |
| CommonLib.PrefixTotal | src/libs/common_lib.c:43 | no prefix is longer than the whole |
| CommonLib.MaxOf | src/libs/common_lib.c:122-139 | `max` of one argument is that argument; of several, an error unless all are ints or all floats, and otherwise the first argument that no other exceeds |
| CommonLib.MinOf | src/libs/common_lib.c:141-158 | `min`: likewise the first argument that no other undercuts |
| CommonLib.CharAsDigit | src/libs/common_lib.c:160-164 | `char_as_digit` yields the digit's value for `'0'` to `'9'` and -1 otherwise |
| CommonLib.SkipJunk | src/libs/common_lib.c:175-176 | `parse-int` skips to the first digit or `'-'` |
| CommonLib.DigitRun | src/libs/common_lib.c:185-188 | the digits read run to the first non-digit |
| CommonLib.ValueStep | src/libs/common_lib.c:190-196 | the two overflow tests of the digit loop fail exactly when the next value passes `I_INT_MAX` |
| CommonLib.Accumulate | src/libs/common_lib.c:190-196 | one digit step yields `v*10+d`, or reports "Integer too large" exactly when that passes `I_INT_MAX` |
| CommonLib.ReadDigits | src/libs/common_lib.c:185-204 | the digit loop yields the decimal value of the digit run, or fails exactly when that passes `I_INT_MAX` |
| CommonLib.RunStep | src/libs/common_lib.c:185-196 | one more digit multiplies the value by 10 and adds it |
| CommonLib.ParseIntCallback | src/libs/common_lib.c:166-209 | `parse-int` refuses a non-string and otherwise yields the parse of the specification: optional junk, optional minus, the value of the digit run, "Integer too large" past `I_INT_MAX` |
| CommonLib.ValueGrows | src/libs/common_lib.c:185-196 | a prefix of the digits has no greater value, so the first overflow is final |
| CommonLib.DigitsShape | src/libs/common_lib.c:246-249 | the decimal digits of a positive number are digits without a leading zero |
| CommonLib.IntToStr | src/libs/common_lib.c:211-253 | the text is non-empty, starts with `'-'` exactly for a negative number, and is the sign then the magnitude's digits |
| CommonLib.IntToStrShape | src/libs/common_lib.c:224-249 | the length is the digit count plus one for the sign, with no leading zero |
| CommonLib.ValueOfDigits | src/libs/common_lib.c:246-249 | reading back the written digits gives the number |
| CommonLib.DigitsRunToEnd | src/libs/common_lib.c:185-188 | a string that is all digits from some point is read to its end |
| CommonLib.SignedLayout | src/libs/common_lib.c:175-182 | `parse-int` finds the sign of a formatted number at its start and the digits after it |
| CommonLib.ParseSigned | src/libs/common_lib.c:166-209 | parsing a sign and digits yields the signed value, or "Integer too large" past `I_INT_MAX` |
| CommonLib.ParseIntToStr | src/libs/common_lib.c:166-253 | `parse-int` of `int->str` of any number but `I_INT_MIN` gives the number back |
| CommonLib.ParseIntMinFails | src/libs/common_lib.c:166-253 | for `I_INT_MIN` the round trip reports "Integer too large" |
| CommonLib.CountDigits | src/libs/common_lib.c:224-230 | the counting loop yields the number of decimal digits |
| CommonLib.WriteDigits | src/libs/common_lib.c:246-249 | the writing loop fills the buffer's tail with the decimal digits, last digit first |
| CommonLib.IntToStrCallback | src/libs/common_lib.c:211-253 | `int->str` refuses a non-int, yields `"0"` for 0, and otherwise the formatted number or "Out of memory" |
| CommonLib.DivisionArgs | src/libs/common_lib.c:255-271 | `rest` and `mod` get past their checks exactly with two ints, a nonzero divisor and not `I_INT_MIN / -1` |
| CommonLib.AbsMulGe | src/libs/common_lib.c:255-275 | a nonzero multiple is at least as large as the divisor in magnitude |
| CommonLib.MulMod | src/libs/common_lib.c:255-275 | a multiple of `d` leaves no remainder |
| CommonLib.RemCongruent | src/libs/common_lib.c:274 | the C remainder is congruent to the dividend |
| CommonLib.Rest | src/libs/common_lib.c:255-275 | `rest` yields the argument errors, or a remainder smaller than the divisor in magnitude, congruent to the dividend and carrying its sign |
| CommonLib.Mod | src/libs/common_lib.c:277-299 | `mod` yields the argument errors, or `(i % d + d) % d` with the sum taken in 64 bits |
| CommonLib.ModPositive | src/libs/common_lib.c:296 | for a positive divisor whose sum does not wrap, the result lies in `[0, d)` and is congruent to the dividend |
| CommonLib.ModOverflows | src/libs/common_lib.c:296 | `1 mod I_INT_MAX` wraps and yields -1 |
| CommonLib.NullCheck | src/libs/common_lib.c:301-307 | `null?` is true exactly when some argument is null |
| CommonLib.Expect | src/libs/common_lib.c:309-316 | `expect` yields null exactly when no argument is null, and the error otherwise |
| CommonLib.InlineIf | src/libs/common_lib.c:334-344 | `if?` yields the value when the condition is true, null when false, an error for a non-bool |
| CommonLib.InlineElse | src/libs/common_lib.c:346-351 | `else?` yields the first argument unless it is null, then the second |
| CommonLib.IfElse | src/libs/common_lib.c:334-351 | `x if? c else? y` selects `x` or `y` by `c` for a non-null `x` |
| CommonLib.AbsVal | src/libs/common_lib.c:364-383 | `abs` of an int is its magnitude, an overflow error for `I_INT_MIN`; of a float its magnitude; anything else an error |
| CommonLib.Switch | src/libs/common_lib.c:387-400 | `switch` calls the branch after the first case `i_val_eq` to the value, else the trailing default, else yields null |
| StringLib.StrMatch | src/libs/string_lib.c:182-193 | `str_match` is true exactly when the pattern occurs at the position |
| StringLib.EndsWithCallback | src/libs/string_lib.c:153-180 | `endswith?` refuses non-strings and otherwise tells whether the first string ends with the second |
| StringLib.EndsWithAppended | src/libs/string_lib.c:153-180 | every string ends with what was appended to it, and with the empty string |
| StringLib.EndsWithOccurs | src/libs/string_lib.c:168-179 | ending with `t` is `t` occurring at the last `|t|` positions |
| StringLib.FindCallback | src/libs/string_lib.c:195-222 | `find` refuses non-strings; yields the first index where the pattern occurs, null exactly when it occurs nowhere, or an error for an index past `I_INT_MAX` |
| StringLib.FindEmpty | src/libs/string_lib.c:210-218 | the empty pattern is found at 0 |
| StringLib.FindTooLong | src/libs/string_lib.c:182-184 | a pattern longer than the string is found nowhere |
| StringLib.Substring | src/libs/string_lib.c:224-262 | `substring` yields a string exactly when the indices are ints with `0 <= i <= j <= len` and allocation succeeds, and it is the bytes from `i` up to `j` |
| StringLib.SubstringChecksOrder | src/libs/string_lib.c:236-240 | reversed indices are reported before any range check |
| StringLib.SubstringSplit | src/libs/string_lib.c:224-262 | adjacent substrings concatenate to the substring spanning both |
| StringLib.SubstringWhole | src/libs/string_lib.c:224-262 | the substring from 0 to the length is the string |
| StringLib.GrownCap | src/libs/string_lib.c:269 | the grown capacity `cap*3/2 + min` leaves room for `min` more bytes |
| StringLib.StrBuff.Empty | src/libs/string_lib.c:264-266 | an empty buffer |
| StringLib.StrBuff.Grow | src/libs/string_lib.c:268-280 | growth succeeds exactly when reallocation does, keeps the contents, and sets the capacity to `cap*3/2 + min` |
| StringLib.StrBuff.Init | src/libs/string_lib.c:282-285 | a new empty buffer of capacity `n` unless allocation fails |
| StringLib.StrBuff.PushChar | src/libs/string_lib.c:287-296 | appends the byte, failing only when the buffer is full and growth fails, and then unchanged |
| StringLib.StrBuff.PushBytes | src/libs/string_lib.c:298-308 | appends the bytes, failing only when they do not fit and growth fails, and then unchanged |
| StringLib.ReplaceTail | src/libs/string_lib.c:182-184 | fewer bytes than the pattern are copied unchanged |
| StringLib.ReplaceNoOccurrence | src/libs/string_lib.c:310-368 | without an occurrence, replacing leaves the text unchanged |
| StringLib.ReplaceBySelf | src/libs/string_lib.c:310-368 | replacing a pattern by itself leaves the text unchanged |
| StringLib.ReplaceKeepsLength | src/libs/string_lib.c:327-335 | replacing by a text of the pattern's length keeps the length |
| StringLib.ReplaceInPlace | src/libs/string_lib.c:327-335 | the in-place branch overwrites each non-overlapping occurrence from left to right, exactly as the left-to-right replacement specifies |
| StringLib.AgreeFrom | src/libs/string_lib.c:329-330 | texts agreeing from a position agree on later tails and on occurrences there |
| StringLib.ReplaceStep | src/libs/string_lib.c:329-334 | one step of the in-place loop keeps "written prefix plus replacement of the rest" equal to the replacement of the original |
| StringLib.StepHit | src/libs/string_lib.c:330-332 | an occurrence is overwritten and skipped |
| StringLib.StepMiss | src/libs/string_lib.c:329 | a position without an occurrence is kept |
| StringLib.Overwrite | src/libs/string_lib.c:331 | `memcpy` writes the replacement at the position and nothing else |
| StringLib.ReplaceCopy | src/libs/string_lib.c:337-366 | the copying branch yields the left-to-right replacement of the source, or nothing when allocation fails |
| StringLib.CopyStep | src/libs/string_lib.c:343-353 | one step of the copying loop keeps "buffer plus replacement of the rest" equal to the replacement of the source |
| StringLib.ReplaceCallback | src/libs/string_lib.c:310-368 | `replace` refuses non-strings; an empty pattern returns the string; otherwise the left-to-right replacement, in place for an unshared string and an equally long replacement, else by copying, which can run out of memory |
| StringLib.ReplaceAllProperties | src/libs/string_lib.c:310-368 | an equally long replacement keeps the length, and replacing a pattern by itself is the identity |
| Probe.Pos | src/libs/datastructures_lib.c:72-86 | the k-th slot the wrapping probe visits lies in the table |
| Probe.Dist | src/libs/datastructures_lib.c:72-86 | every slot is visited, at the step that is its distance from the home slot |
| Probe.DistPos | src/libs/datastructures_lib.c:72-86 | the distance of the k-th visited slot is k |
| Probe.FirstStopSpec | src/libs/datastructures_lib.c:61-89 | the probe yields the first slot in wrapping order from the home slot that stops it, or none when no slot does |
| Probe.FirstStopAt | src/libs/datastructures_lib.c:61-89 | a stopping slot with none before it in probe order is the probe's answer |
| Probe.TwoScans | src/beryl.c:498-525 | a forward scan from the home slot followed by a scan from 0 to the home slot finds exactly the wrapping probe's answer |
| Probe.FirstStopTotal | src/libs/datastructures_lib.c:88 | when some slot stops the probe, the probe finds one |
| Probe.Stops | src/libs/datastructures_lib.c:75-85 | a slot stops the probe when it is empty or holds the key |
| Probe.Find | src/libs/datastructures_lib.c:61-89 | the slot found is empty or holds the key |
| Probe.FindPresent | src/libs/datastructures_lib.c:91-103 | in a table kept by probing insertions with unique keys, a stored key is found at its slot |
| Probe.FindAbsent | src/libs/datastructures_lib.c:91-103 | when the probe ends at an empty slot the key is stored nowhere |
| Probe.FindTotal | src/libs/datastructures_lib.c:88 | a table with an empty slot always gives a slot |
| Probe.InsertChained | src/libs/datastructures_lib.c:147-158 | storing a key at the empty slot its probe found keeps the table probe-consistent and its keys unique |
| Probe.Count | src/libs/datastructures_lib.c:157 | no more keys are counted than there are slots |
| Probe.CountFill | src/libs/datastructures_lib.c:157 | filling an empty slot counts one more key |
| Probe.CountBelowFindsEmpty | src/libs/datastructures_lib.c:88 | a table with fewer keys than slots has an empty slot |
| Probe.CountEmpty | src/libs/datastructures_lib.c:135-138 | a table of empty slots counts no keys |
| Probe.EmptyChained | src/libs/datastructures_lib.c:135-138 | a table of empty slots is probe-consistent |
| CTypes.SignedChar | src/beryl.c:500-503 | a `char` read from a string is the byte taken as a signed value |
| CTypes.WrapI64 | src/libs/core_lib.c:72 | a `long long` result wraps modulo 2^64 into range, and is unchanged when it fits |
| CTypes.WrapAdd | src/libs/core_lib.c:173 | adding to a wrapped value and wrapping again equals wrapping the exact sum |
| CTypes.AddI64Wraps | src/libs/core_lib.c:173 | the target's `long long` addition is the exact sum wrapped modulo 2^64 |
| CTypes.WrapShifted | src/libs/core_lib.c:173 | values that differ by a multiple of 2^64 wrap to the same `long long` |
| CTypes.CRemMagnitude | src/libs/common_lib.c:274 | C's `%` has the magnitude of the magnitudes' remainder and the dividend's sign |
| CTypes.CRemBounds | src/libs/common_lib.c:274 | C's remainder is smaller than the divisor in magnitude and carries the dividend's sign |
| MathLib.IIPow | src/libs/math_lib.c:40-63 | `ii_pow` answers exponents 0, 1 and 2 directly, the square unchecked |
| MathLib.PowPositive | src/libs/math_lib.c:40-63 | powers of a positive base are positive, so the overflow test never divides by zero for such a base |
| MathLib.PowAdd | src/libs/math_lib.c:48-53 | `a^(m+n) = a^m * a^n`, which justifies squaring the half power |
| MathLib.IIPowSaturates | src/libs/math_lib.c:40-63 | for a base of at least 1 whose square fits, `ii_pow` is the true power while that stays below `I_INT_MAX`, and `I_INT_MAX` from there on |
| MathLib.SquareSaturates | src/libs/math_lib.c:48-53 | the even step turns the saturated half power into the saturated power |
| MathLib.TimesSaturates | src/libs/math_lib.c:55-61 | the odd step turns the saturated lower power into the saturated power |
| MathLib.IIPowWrapsToZero | src/libs/math_lib.c:41-42 | `2^32` squared wraps to 0, so `ii_pow(2^32, 4)` reaches the overflow test with a zero divisor |
| MathLib.IIPowZeroBase | src/libs/math_lib.c:48-61 | with base 0 every exponent from 3 on reaches the overflow test with a zero divisor |
| MathLib.AsNumber | src/libs/math_lib.c:7-13 | an int reads as its own value, zero exactly for 0, and a value that is no number reads as 0 |
| MathLib.PowCallback | src/libs/math_lib.c:82-120 | `^` refuses a non-number exponent and, with an int exponent, a non-number base; everything left unanswered involves a float or an int power of at least 3 |
| MathLib.PowIntInt | src/libs/math_lib.c:86-96 | `^` on ints with a base of at least 1 whose square fits yields 0 for a negative exponent, the power below `I_INT_MAX`, and "Integer overflow" from there on |
| MathLib.ZeroToTheZero | src/libs/math_lib.c:89-90 | `0^0` is refused with int and float operands alike, as is any float base to the int power 0 |

## Left out

- `build.py` process and file-system effects. `os.walk` is an input list of (directory, file) entries. `os.chdir`, `subprocess.run`, `cp`, `input` and `print` are not modelled. The commands are returned in order; exit codes are never checked, so a failed compile does not stop the later steps.
- Floating-point behaviour, because `real` has no rounding, NaN or infinities:
  - the lexer's fractional branch (`src/lexer.c:151-166`), whose token value is not computed;
  - the float paths of `+ - * /` beyond "the result is a float";
  - `round`, `integer-of`, float `abs`, `sqrt`, trigonometry and `fi_pow` (including its `fi_pow(f, 0) == 0`);
  - numbers of the newer runtime, `beryl_is_integer` and numeric table keys (tables of the newer runtime hold strings, bools and tags only);
  - number printing in `src/io.c:47-53`, which is a parameter.
- The evaluators `parse_eval_*`, `beryl_call`, `beryl_pcall` and `beryl_eval` in both runtimes. They interleave parsing with calls through function pointers, so script functions are oracle parameters, and the order and side effects of those calls are not modelled.
- `log_err` caret rendering, `src/main.c`, `load_file`, and the io, unix, debug and modules libraries. These are output and operating-system plumbing, and the `DEF_FN` bodies are script source.
- The allocator callbacks. Each allocation is one boolean outcome and raw memory is not modelled. `StringLib.ReplaceCopy` takes one outcome for the whole copy, not one per growth.
- Reference counting in the libraries, the older runtime's environment and the newer runtime's table, array and stack code. These return the values they would release rather than updating counts. Counts are modelled in `BerylMem.RefHeap` only.
- `BerylMem.RefHeap.Release` removes a freed object before releasing its children. The C code frees it afterwards, but the final heap is the same.
- Arrays are values inside arrays and tables, so aliasing between nested arrays is not modelled. A `DsLib` array buffer is a class, so in-place updates of one array are modelled.
- Blaming arguments (`beryl_blame_arg`) inside library callbacks is not modelled. The error buffers are modelled on their own in `BerylEnv.ErrState` and `IEnv.ErrBuffers`.
- `BerylTable.HashVal`: tags hash to 0 because `hash_val` has no tag case and its assertion is compiled out in release builds.
- `MathLib.IIPow`: where the C code would divide by a zero power (base 0, or a square that wraps to 0), the model yields `None`. Negative bases are not given a meaning. `MathLib.PowIntInt` proves the power only for bases whose square fits.
- `MathLib.PowCallback`: every float result is `None`. For a negative exponent, `fi_pow` (`src/libs/math_lib.c:65-80`) never returns: -1 is odd and recurses on -2, and -2 is even and recurses on -1. So `2.0 ^ -1` exhausts the stack, and the `1.0 / res` branch at `src/libs/math_lib.c:100-101` is never reached.
- `DsLib.In` requires an array or a table. `in?` treats any non-array as a table, which has no meaning for other values.
- `DsLib.ArrayOf` requires `n < 2^32`. `i_val_managed_array` takes its length and capacity as `i_size` (`src/interpreter.c:157`), so a larger count is truncated modulo 2^32, and the loop at `src/libs/datastructures_lib.c:494` would then write past the buffer.
- `DsTable.TableConstruct` requires hashable keys, as `find_in_table` asserts.
- `CommonLib.IntToStrCallback`: `I_INT_MIN` is formatted from its magnitude. `-I_INT_MIN` overflows in C, and `CommonLib.ParseIntMinFails` shows that the round trip fails there.
- `CoreLib.ArithCallback`: unary `-` of `I_INT_MIN` wraps to itself (`WrapI64`), standing for signed overflow.
- `CoreLib.ForCallback`: signed overflow of `i += by` is undefined behaviour in C, and it is taken to wrap as on the target. A loop that never ends is reported as `Diverges`. Because the visited indices repeat after 2^64 visits, the model decides this after at most that many calls.
- `DsLib.ForeachIn` on an empty array yields `None`, because the C code returns an uninitialised value.
- `IoPrint.PrintIVal`: the "Unkown" default of `print_i_val` cannot be reached, since every value has one of the printed types.
- `CTypes.WrapI64` stands for signed overflow in the unchecked products of `ii_pow` and `mod:`, taken to wrap as on the target.
- The older runtime's globals live on its stack: `get_global` scans the whole stack, and there is no globals table there.
