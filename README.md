# A verified model of a `printf` clone

This project models the formatting engine of a small C `printf` clone:

- the directive scanners `get_flags`, `get_width`, `get_precision` and `get_size`;
- the dispatcher `handle_print`, with its conversion table and its fallback for unknown conversion characters;
- the converters for `%c %s %% %d %i %b %u %o %x %X %p %S %r %R`;
- the padding assemblers `write_unsgnd`, `write_number`, `write_num`, `handle_write_char` and `write_pointer`;
- the template driver `_printf` with `print_buffer`.

Everything the engine does is observable as the bytes it appends to standard output and the count it returns. The model states both exactly.

Each C file is one module:

| file | module |
|---|---|
| `utils.c` | `Utils` |
| `get_*_funtion.c` | `FlagScanner`, `WidthScanner`, `PrecisionScanner`, `SizeScanner` |
| `write_handlers_functions.c` | `WriteHandlers` |
| `function_0.c`, `function_1.c`, `function_2.c` | `Function0`, `Function1`, `Function2` |
| `handle_print_fucntion.c` | `Handler` |
| `_printf.c` | `Printf` |

The other modules are:

- `Defs`: the roles of the header's constants (flag bits, size codes, `BUFF_SIZE` = 1024), the tagged argument type `Arg`, and C strings (byte sequences closed by one NUL).
- `Io`: a `Sink` class for standard output (`write(1, p, n)` appends `p[0..n)` and returns `n`) and a `VaList` class for the `va_list`, a sequence of tagged arguments with a cursor that only advances.
- `DigitRuns`: the right-to-left digit loop that the numeric converters share.

The source is imperative, and so is the model:

- the scratch buffer is an `array<char>` of `BUFF_SIZE` cells, shared by the driver and the converters;
- loops are `while` loops with invariants;
- `*i` and `*ind` out-parameters are returned values.

Each method is proved against a specification function of its inputs. For example:

- `WidthScan` for `get_width`;
- `UnsgndField` for `write_unsgnd`;
- `Handle` for `handle_print`;
- `Run` for the template loop.

What the source promises is proved about those functions as lemmas: digit round trips, field lengths and layouts, flag-bit sets, ROT13 and reversal involutions, and the driver's count.

Three behaviours of the code are easy to misread, and the model keeps them as written:

- A null `%r` argument prints `(lluN)`: the placeholder `")Null("` is reversed like any string (`Function1.ReverseOfNull`).
- A null `%s` argument under a precision from 0 to 5 prints only that many bytes of `(null)`: the precision clamp applies to the placeholder too (`Function2.NullString`).
- A zero-padded non-null `%p` has leading zeros between `0x` and the digits (`WriteHandlers.PointerFieldZeroPadded`).

## Model

| member | source | states |
|---|---|---|
| Utils.IsDigit | utils.c:12-18 | returns 0 or 1, and 1 exactly for '0'..'9' |
| Utils.IsPrintable | utils.c:31-37 | returns 0 or 1, and 1 exactly for the codes 32 to 126 inclusive |
| Utils.ConvertSizeNumber | utils.c:52-60 | identity under `S_LONG`; under `S_SHORT` a value in the signed 16-bit range congruent to the argument mod 2^16; otherwise a value in the `int` range congruent mod 2^32 |
| Utils.ConvertSizeUnsgnd | utils.c:77-85 | identity under `S_LONG`; otherwise the argument reduced mod 2^16 (`S_SHORT`) or mod 2^32, in range |
| Utils.Magnitude | utils.c:107-108 | the absolute value of the byte read as a signed char: at most 128, and 128 only for byte 0x80 |
| Utils.AppendHexaCode | utils.c:103-117 | stores exactly the four escape bytes at buffer[i..i+4), leaves every other cell unchanged, and returns 3 |
| Utils.HexCodeValue | utils.c:105-114 | the escape is '\\', 'x' and two upper-case hex digits whose value is the absolute value of the signed byte |
| Utils.HexCodeOfMinusOne | utils.c:107-114 | byte 0xFF (the signed char -1) is escaped as `\x01` |
| Utils.UpperDigitValue | utils.c:105 | entry d of the upper-case map is an upper-case hex digit worth d |
| Utils.DigitRunEnd | get_width_funtion.c:21-35 | the first index at or after j that is not a digit; every index before it is a digit; it never passes the terminator |
| Utils.DigitRunEndAt | get_width_funtion.c:21-35 | any index that ends a digit run starting at j is the one DigitRunEnd finds |
| Utils.RunValueMono | get_width_funtion.c:25-26 | over a digit run the accumulated `width * 10 + digit` value is never negative and never shrinks |
| Utils.RunValueIsValueOf | get_precision_funtion.c:31-32 | over a digit run the accumulated value is the run read as a decimal number |
| FlagScanner.FlagRunEnd | get_flags_funtion.c:22-33 | the end of the maximal run of flag characters: every character before it is a flag, it is not, and it is inside the string |
| FlagScanner.GetFlags | get_flags_funtion.c:15-38 | the mask is the OR of the flag bits of the maximal flag run after the '%', and `*i` ends on its last character (unchanged when there is no flag) |
| FlagScanner.FlagIndex | get_flags_funtion.c:24-29 | the inner table scan returns the matching entry's index, or the sentinel's index exactly when the character is not a flag |
| FlagScanner.FlagRunEndUnique | get_flags_funtion.c:31-35 | any index that ends a flag run is the one FlagRunEnd finds |
| FlagScanner.AddFlag | get_flags_funtion.c:25-28 | OR-ing the matched entry's bit into the mask of a prefix gives the mask of the prefix one longer |
| FlagScanner.InTable | get_flags_funtion.c:19-20 | each table entry before the sentinel is a flag character paired with its own bit |
| FlagScanner.NotInTable | get_flags_funtion.c:24-32 | a character that matches no entry is not a flag character |
| FlagScanner.FlagsOfBits | get_flags_funtion.c:19-27 | no bit outside the five flag bits is ever set, and each flag bit is set if and only if its character occurs in the run |
| FlagScanner.FlagsOfSameChars | get_flags_funtion.c:27 | order and repetition of flag characters do not change the mask |
| WidthScanner.WidthScan | get_width_funtion.c:16-41 | the width scan ends at or after `*i` and before the terminator |
| WidthScanner.GetWidth | get_width_funtion.c:16-41 | the loop returns the width, the new `*i` and the argument cursor that WidthScan gives |
| WidthScanner.WidthAbsent | get_width_funtion.c:19-38 | with neither a digit nor '*' next: width 0, `*i` unchanged, no argument read |
| WidthScanner.WidthStar | get_width_funtion.c:23-33 | a '*' after any digits reads exactly one `int` argument, which replaces the digits' value, and the '*' is consumed |
| WidthScanner.WidthDigits | get_width_funtion.c:21-38 | a digit run not followed by '*' gives its decimal value, and `*i` ends on its last digit |
| PrecisionScanner.PrecisionScan | get_precision_funtion.c:17-47 | the precision scan ends at or after `*i` and before the terminator |
| PrecisionScanner.GetPrecision | get_precision_funtion.c:17-47 | the loop returns the precision, the new `*i` and the argument cursor that PrecisionScan gives |
| PrecisionScanner.PrecisionAbsent | get_precision_funtion.c:19-23 | without a '.' next: -1, `*i` unchanged, no argument read |
| PrecisionScanner.PrecisionDotOnly | get_precision_funtion.c:25-44 | a '.' followed by neither digit nor '*' gives 0 (not "absent") and consumes the '.' |
| PrecisionScanner.PrecisionStar | get_precision_funtion.c:34-38 | ".*" reads exactly one `int` argument as the precision and consumes the '*' |
| PrecisionScanner.PrecisionDigits | get_precision_funtion.c:27-44 | '.' and a digit run give the run's decimal value, and `*i` ends on its last digit |
| SizeScanner.SizeScan | get_size_funtion.c:16-32 | 'l' gives `S_LONG` and 'h' gives `S_SHORT`, each consuming one character; anything else gives 0 and consumes nothing |
| SizeScanner.GetSize | get_size_funtion.c:16-32 | the method returns what SizeScan gives |
| SizeScanner.SizeConsumesOne | get_size_funtion.c:21-29 | in "ll" only the first 'l' is consumed, so the second becomes the conversion character |
| DigitRuns.DigitCharValue | function_0.c:41 | a stored digit character reads back as its digit, is a non-NUL byte, and is a decimal digit exactly when the digit is below ten |
| DigitRuns.HexMaps | function_0.c:128-129 | the lower- and upper-case `map_to` tables hold at each index the digit character of that index |
| DigitRuns.DigitsValue | function_0.c:39-43 | round trip: the digits the loop produces read back, in the same base, as the number |
| DigitRuns.RenderedValue | function_0.c:34-43 | the staged run reads back as the number, is never empty, and starts with '0' exactly when the number is 0 |
| DigitRuns.DigitsLeading | function_0.c:39-43 | the digits of a positive number have no leading zero |
| DigitRuns.DigitsChars | function_0.c:39-43 | every stored digit is a digit of the base and not NUL |
| DigitRuns.DigitsLength | function_0.c:39-43 | a number below 2^k has at most k digits in any base of at least two |
| DigitRuns.DigitsOfULong | function_0.c:26-43 | an `unsigned long` never needs more than 64 cells |
| DigitRuns.StoreDigits | function_0.c:39-43 | the `while (num > 0)` loop stores exactly the digits of num right to left ending at i, and leaves every other cell unchanged |
| DigitRuns.StepDigits | function_0.c:41-42 | one iteration: the stored digit is below the base, and the digits of n are those of n / base followed by it |
| DigitRuns.StageDigits | function_0.c:26-43 | the run in buffer[i+1..BUFF_SIZE-1) is "0" for zero and the digits otherwise, the last cell holds the terminator, and cells before the run are unchanged |
| WriteHandlers.ZeroExtended | write_handlers_functions.c:37-41 | the zero-extended run is max(precision, run length) long |
| WriteHandlers.ZeroExtend | write_handlers_functions.c:37-41 | the loop prepends '0' cells until the run has `precision` digits, and touches no cell before the new start |
| WriteHandlers.FillPad | write_handlers_functions.c:48-51 | the pad loop stores `count` pad characters from cell `from`, keeping the cells before it and the staged run |
| WriteHandlers.WritePair | write_handlers_functions.c:55 | `write(..) + write(..)` appends both slices, left first, and returns the sum of their lengths |
| WriteHandlers.PadAndWrite | write_handlers_functions.c:43-63 | the digits are padded up to `width`: pad after the digits under '-', before them otherwise |
| WriteHandlers.WriteUnsgnd | write_handlers_functions.c:21-64 | write_unsgnd appends exactly UnsgndField of the staged run and returns its length |
| WriteHandlers.ZeroExtendedValue | write_handlers_functions.c:37-41 | zero extension keeps the run's value, and the run is its tail |
| WriteHandlers.ValueOfLeadingZeros | write_handlers_functions.c:37-44 | leading '0' digits, from precision or pad, do not change a run's value |
| WriteHandlers.UnsgndFieldLength | write_handlers_functions.c:31-63 | nothing for a lone "0" under precision 0, even with a width; otherwise max(width, precision, run length) bytes |
| WriteHandlers.UnsgndFieldRightAligned | write_handlers_functions.c:57-60 | without '-', the field ends with the staged run |
| WriteHandlers.UnsgndFieldLeftAligned | write_handlers_functions.c:53-56 | under '-', the field is the zero-extended run followed only by blanks |
| WriteHandlers.UnsgndFieldZeroPadded | write_handlers_functions.c:43-44 | under '0' without '-', the field is the run with leading zeros and has the run's value |
| WriteHandlers.PutExtra | write_handlers_functions.c:192-193 | `buffer[--ind] = extra_c` puts the extra character, if any, in front of the run |
| WriteHandlers.SpacePadded | write_handlers_functions.c:190-201 | blank-padded write_num writes the extra character and the digits, and the blanks, in the order '-' says |
| WriteHandlers.ZeroPadded | write_handlers_functions.c:202-208 | zero-padded write_num writes the extra character, then the zeros, then the digits |
| WriteHandlers.ExtraAndDigits | write_handlers_functions.c:210-212 | without padding, write_num writes the extra character and the digits in one write |
| WriteHandlers.SignPadAndWrite | write_handlers_functions.c:183-212 | write_num after zero extension appends exactly SignedLayout and returns its length |
| WriteHandlers.WriteNum | write_handlers_functions.c:169-213 | write_num appends exactly NumField of the staged run and returns its length |
| WriteHandlers.WriteNumber | write_handlers_functions.c:83-102 | write_number appends exactly NumberField (pad and extra character chosen from the flags) and returns its length |
| WriteHandlers.NumberFieldLength | write_handlers_functions.c:175-212 | nothing for a lone "0" under precision 0 without width; otherwise max(width, sign + max(precision, run length)) bytes |
| WriteHandlers.NumberFieldZeroPadded | write_handlers_functions.c:202-208 | zero-padded: the sign, then the run with leading zeros, of the run's value |
| WriteHandlers.NumberFieldLeftAligned | write_handlers_functions.c:190-195 | under '-': the sign and zero-extended run, then only blanks |
| WriteHandlers.NumberFieldRightAligned | write_handlers_functions.c:196-201 | blank-padded without '-': only blanks, then the sign and zero-extended run |
| WriteHandlers.SignedLayoutMinus | write_handlers_functions.c:183-212 | the layout adds no '-' other than the extra character |
| WriteHandlers.NumberFieldMinus | write_handlers_functions.c:93-98 | write_number emits exactly one '-' for a negative number and none otherwise |
| WriteHandlers.NumberFieldLoneZero | write_handlers_functions.c:175-178 | a lone "0" under precision 0 loses its digit: only blanks and the sign remain |
| WriteHandlers.PadBeforeLast | write_handlers_functions.c:136-138 | handle_write_char's loop fills the `count` cells before the last one with the pad and keeps cell 0 |
| WriteHandlers.PadChar | write_handlers_functions.c:134-146 | the padded case appends exactly CharField |
| WriteHandlers.HandleWriteChar | write_handlers_functions.c:119-149 | handle_write_char appends exactly CharField and returns its length |
| WriteHandlers.CharFieldShape | write_handlers_functions.c:128-148 | max(width, 1) bytes, the character first under '-' and last otherwise, and the pad ('0' whenever '0' is set, even with '-') everywhere else |
| WriteHandlers.PutPrefix | write_handlers_functions.c:270-273 | "0x" and the extra character, if any, go in front of the hex digits |
| WriteHandlers.PointerSpacePadded | write_handlers_functions.c:244-259 | blank-padded write_pointer writes the extra character, "0x" and the digits, and the blanks, in the order '-' says |
| WriteHandlers.PointerZeroPadded | write_handlers_functions.c:260-268 | zero-padded write_pointer writes the extra character, "0x", the zeros, then the digits |
| WriteHandlers.PointerUnpadded | write_handlers_functions.c:270-274 | without padding, the extra character, "0x" and the digits in one write |
| WriteHandlers.WritePointer | write_handlers_functions.c:234-275 | write_pointer appends exactly PointerField and returns its length |
| WriteHandlers.PointerFieldLength | write_handlers_functions.c:239-274 | max(width, extra + 2 + digits) bytes |
| WriteHandlers.PointerFieldBlank | write_handlers_functions.c:244-259 | blank-padded: the extra character, "0x" and the digits at the front under '-', at the back otherwise |
| WriteHandlers.PointerFieldZeroPadded | write_handlers_functions.c:260-268 | zero-padded: the extra character and "0x", then the digits with leading zeros, of the digits' value |
| Function0.PrintOctal | function_0.c:22-51 | reads one argument; appends write_unsgnd of the octal run (with the '#' zero) and returns its length |
| Function0.PrintHexa | function_0.c:74-105 | reads one argument; appends write_unsgnd of the hex run in the table's case (with the '#' prefix) and returns its length |
| Function0.PrintHexadecimal | function_0.c:125-130 | print_hexa with lower-case digits and 'x' |
| Function0.PrintHexaUpper | function_0.c:151-156 | print_hexa with upper-case digits and 'X' |
| Function0.PrintUnsigned | function_0.c:175-197 | reads one argument; appends write_unsgnd of its decimal run and returns its length |
| Function0.RenderedChars | function_0.c:39-43 | every character of a staged run is a digit of its base |
| Function0.OctalRunValue | function_0.c:28-48 | the octal run reads back as the cast value, holds only octal digits, and starts with '0' exactly when '#' meets a non-zero argument (tested before the cast) or the cast value is 0 |
| Function0.HexRunValue | function_0.c:79-102 | "0x"/"0X" leads exactly when '#' meets a non-zero argument; the digits after it read back as the cast value, with no leading zero unless it is 0 |
| Function0.UnsignedRunValue | function_0.c:178-194 | the decimal run reads back as the cast value, has only decimal digits and no leading zero unless it is 0 |
| Function0.OctalZeroPaddedOutput | function_0.c:45-50 | zero-padded octal output reads back as the cast value |
| Function1.EscapedStep | function_1.c:38-45 | one more byte of the string adds its piece (itself or its escape) to the stored escape |
| Function1.EscapedPrefix | function_1.c:38-48 | the escape of a prefix is no longer than that of the whole string, so the loop stays inside the buffer |
| Function1.EscapedLength | function_1.c:38-50 | the count is the string length plus 3 per non-printable byte |
| Function1.EscapedPrintable | function_1.c:40-43 | every byte %S emits is printable |
| Function1.EscapedOfPrintable | function_1.c:40-41 | a printable string is emitted unchanged |
| Function1.EscapeOne | function_1.c:40-43 | one pass stores the byte or its escape and grows the offset by 0 or 3 |
| Function1.EscapeInto | function_1.c:38-48 | the loop leaves the escaped string, then a NUL, at the start of the buffer and returns its length |
| Function1.PrintNonPrintable | function_1.c:24-51 | reads one argument; appends "(null)" for null, else the escaped string, and returns its length |
| Function1.PrintPointer | function_1.c:71-110 | reads one argument; appends "(nil)" for NULL, else write_pointer of the lower-case hex address, and returns its length |
| Function1.PointerOutShape | function_1.c:91-109 | a non-null pointer prints as max(width, extra + "0x" + digits) bytes, the digits reading back as the address, placed by '-' when blank-padded |
| Function1.PointerZeroPaddedValue | function_1.c:98-109 | zero-padded: the extra character, "0x", then digits with leading zeros reading back as the address |
| Function1.Rot13String | function_1.c:149-167 | one byte out per byte in, each byte mapped by ROT13 |
| Function1.RotInAt | function_1.c:137 | `in` is the upper-case then the lower-case alphabet |
| Function1.RotOutAt | function_1.c:138 | `out` is each alphabet with its halves swapped |
| Function1.RotTables | function_1.c:137-138 | `in` holds only letters and `out` holds their ROT13 image at the same index |
| Function1.NotInTable | function_1.c:161-166 | a byte the table scan does not find is not a letter and passes through |
| Function1.Rot13Twice | function_1.c:137-138 | the table mapping applied twice gives the byte back |
| Function1.Rot13Involution | function_1.c:137-138 | ROT13 of a string applied twice gives the string back |
| Function1.Rot13OfNull | function_1.c:147-148 | a null %R argument prints "(NULL)" |
| Function1.RotLookup | function_1.c:151-166 | the table scan returns the ROT13 image of the byte |
| Function1.PrintRot13String | function_1.c:130-169 | reads one argument; writes the ROT13 image byte by byte and returns its length |
| Function1.Reverse | function_1.c:211-217 | the output is as long as the string and holds its bytes last first |
| Function1.ReverseInvolution | function_1.c:211-217 | reversing twice gives the string back |
| Function1.ReverseOfNull | function_1.c:202-217 | a null %r argument prints "(lluN)" |
| Function1.PrintReverse | function_1.c:189-219 | reads one argument; writes its bytes from the last and returns the length |
| Function2.PrintPercent | function_2.c:18-28 | writes one '%' and returns 1 |
| Function2.LowByte | function_2.c:48 | `char c = va_arg(types, int)` keeps a byte congruent to the int mod 256 |
| Function2.LowByteKeepsChars | function_2.c:48 | a value that already is a char survives the conversion |
| Function2.PrintChar | function_2.c:45-51 | reads one argument; appends handle_write_char's field of its low byte |
| Function2.CharOut | function_2.c:48-50 | %c emits max(width, 1) bytes, and the non-pad byte is the argument's low byte |
| Function2.PrintString | function_2.c:69-112 | reads one argument; appends StringOut and returns its length |
| Function2.PadString | function_2.c:93-108 | the padded case writes the kept part and `width - length` blanks, text first exactly under '-', and returns `width` |
| Function2.WriteBlanks | function_2.c:98-99 | the blank loop writes `count` blanks |
| Function2.StringOutShape | function_2.c:87-111 | max(width, kept) bytes; the kept part is the first `precision` bytes when a set precision is shorter, the whole string otherwise; at the front under '-', at the back otherwise; blanks only elsewhere, whatever '0' says |
| Function2.NullString | function_2.c:80-85 | a null string shows a prefix of "(null)" below precision 6 and only blanks from precision 6 on |
| Function2.BinaryBits | function_2.c:145-152 | a[i] is the bit of n worth 2^(31-i) |
| Function2.BitsOfValue | function_2.c:146-152 | the 32 bits of the array form n |
| Function2.EmitBits | function_2.c:153-164 | the second loop skips leading zero bits, always writes the last, and writes the binary digits of the bits' value |
| Function2.PrintBinary | function_2.c:132-165 | reads one argument; writes its binary digits, "0" for 0, and returns their count |
| Function2.BinaryOut | function_2.c:145-164 | the output holds only '0' and '1', reads back as n, and has no leading zero unless n is 0 |
| Function2.BinaryLength | function_2.c:153-164 | %b emits between 1 and 32 digits |
| Function2.PrintInt | function_2.c:183-214 | reads one argument; appends write_number of the decimal magnitude of the cast value with its sign, and returns the length |
| Function2.IntRunValue | function_2.c:191-209 | the staged run reads back as the magnitude of the cast value, has only decimal digits and no leading zero unless it is 0 |
| Function2.IntMinusSign | function_2.c:199-202 | %d emits exactly one '-' for a negative cast value and none otherwise, whatever the flags, width and precision |
| Function2.IntZeroPaddedOutput | function_2.c:186-213 | zero-padded %d: the sign ('-' for a negative value), then only digits, reading back as the magnitude |
| Handler.RewindStop | handle_print_fucntion.c:54-56 | the latest ' ' or '%' at or before j, never before the directive's '%' |
| Handler.Handle | handle_print_fucntion.c:28-65 | None exactly when `ConvertOk` fails for a table character: an argument of the wrong variant or range, a width or precision above the converter's buffer bound (`MAX_FIELD` for the numeric and pointer converters, `BUFF_SIZE - 1` for %c), `LONG_MIN` for %d/%i, or a %S escape that overruns the buffer; '\0' gives -1 with nothing written; otherwise the count equals the bytes written and `*ind` stays inside the directive; an unknown character writes a leading '%' and reads no argument |
| Handler.TableIndex | handle_print_fucntion.c:41-42 | the table scan finds the entry for the character, or the sentinel exactly when it is not a conversion character |
| Handler.InTable | handle_print_fucntion.c:32-40 | the entries before the sentinel are conversion characters |
| Handler.NotInTable | handle_print_fucntion.c:41-45 | a character matching no entry is not a conversion character |
| Handler.CallTextConverter | handle_print_fucntion.c:42-43 | the called converter's bytes are appended, its count returned unchanged, and its arguments consumed |
| Handler.CallNumberConverter | handle_print_fucntion.c:42-43 | the same for the numeric converters |
| Handler.Rewind | handle_print_fucntion.c:54-58 | the rewind stops at the latest ' ' or '%', one step further on a ' ' |
| Handler.HandlePrint | handle_print_fucntion.c:28-65 | appends exactly what Handle says and returns its count and new `*ind` |
| Handler.RewindToPercent | handle_print_fucntion.c:54-56 | with no ' ' in between, the rewind lands on the directive's own '%' |
| Printf.Parse | _printf.c:62-66 | the scans end past the '%' and inside the template, and only advance the argument cursor |
| Printf.Directive | _printf.c:62-68 | a directive's count is the bytes it writes; -1 writes nothing |
| Printf.Run | _printf.c:49-78 | the template loop's value is a count or -1 |
| Printf.PrintBuffer | _printf.c:15-21 | writes exactly the buffered bytes and empties the buffer |
| Printf.ScanDirective | _printf.c:62-66 | flags, width, precision and size are read in that order, as Parse says |
| Printf.HandleDirective | _printf.c:61-68 | appends what the directive writes and returns its count and index |
| Printf.RunLiteral | _printf.c:51-58 | a literal byte is output and counts one |
| Printf.RunDirective | _printf.c:59-72 | a directive's output comes before the rest; its -1 ends the call with -1 |
| Printf.DirectiveStep | _printf.c:61-71 | a directive writes its bytes and leaves the loop where the rest of the template starts |
| Printf.BufferByte | _printf.c:53-55 | a literal byte joins the buffered bytes; the buffer is flushed when full, and its index stays below BUFF_SIZE |
| Printf.Step | _printf.c:49-73 | each pass keeps output plus buffered bytes equal to the bytes so far, and keeps the count |
| Printf.Printf | _printf.c:37-79 | appends exactly the bytes of the template loop and returns its count; a NULL template returns -1 and writes nothing |
| Printf.RunCountsBytes | _printf.c:57-78 | the result is -1 or the number of bytes written |
| Printf.LiteralTemplate | _printf.c:49-58 | a template with no '%' is output byte for byte and its length returned |
| Printf.TrailingPercent | _printf.c:62-70 | a template that ends in '%' writes its literal bytes and returns -1 |
| Printf.StarsInOrder | _printf.c:62-66 | in "%*.*" the width argument is read before the precision argument, and the conversion reads the next one |

## Left out

- `write(2)` errors and partial writes are not modelled: every write appends all its bytes and returns their number.
- WriteHandlers.WritePair: in `write(..) + write(..)` C leaves the order of the two calls unspecified; the model takes the left operand first.
- Reading an argument of the wrong C type with `va_arg` is undefined behaviour. The converters require the right `Arg` variant, and `Run` is `None` for such a call.
- Printf.Printf requires `Run` to be defined. This excludes the undefined cases above, a digit run that overflows an `int` in a width or precision, and the next item.
- Buffer overruns are excluded, not modelled. For the numeric and pointer converters, which stage their padded field in the buffer, a width or precision above 500 (`MAX_FIELD`) is out of scope; 500 is a conservative bound, not the exact point where the buffer overruns. %c admits any width up to `BUFF_SIZE - 1`, the exact bound of `handle_write_char`.
- Function1.PrintNonPrintable requires the escaped string, with its terminator, to fit the buffer. It also requires the string to hold no byte 0x80, whose escape indexes the digit map out of bounds.
- WriteHandlers.HandleWriteChar requires `width <= BUFF_SIZE - 1`: at width `BUFF_SIZE` the pad loop overwrites the character in `buffer[0]`, so the C prints only pad bytes, and above it the loop writes before the buffer; the model excludes both.
- Function2.PrintChar carries the same `width <= BUFF_SIZE - 1` bound, for the same reason.
- Function2.PrintInt excludes `LONG_MIN` as the cast value, because `(-1) * n` overflows for it.
- The flags mask is a `bv8`: the C `int` only ever holds the five flag bits (FlagScanner.FlagsOfBits).
- The counter `printed_chars` is an unbounded integer: `int` overflow of the count is not modelled.
- The pointer-to-integer cast of `%p` is not modelled: the address is a natural number.
- WriteHandlers.WritePointer requires `padd_start == 1`, the value its only caller passes.
- WriteHandlers.WriteNum requires `length` to be the staged run's length, as its only caller passes it.
- The `\x`-escape of a signed char reads the byte as signed (x86 `char`).
- The five digit loops of the converters are one shared method, `DigitRuns.StoreDigits`, because the source repeats the same loop.
- `handle_print`'s final `return (printed_chars)` (handle_print_fucntion.c:64) is unreachable, because the table scan either returns or stops at the sentinel. It has no counterpart in the model.
- The `main.h` header is not part of this model. Its constants are fixed as above.
