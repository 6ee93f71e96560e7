# EV3Basic toolchain in Dafny

EV3Basic lets Small Basic programs run on the LEGO EV3 brick. This project
models its core in Dafny and proves properties of the model:

- **The compiler** (`EV3BasicCompiler`):
  - the scanner;
  - expressions and their code generation, including the save and restore of
    locals around a call of a user-defined function;
  - function definitions and parameter defaults;
  - the runtime library entries;
  - the compiler's symbol tables, call graph, string escaping and the
    assignment of subroutines to functions.
- **The assembler** (`LMSAssembler`):
  - byte-code buffers and the LMS parameter encodings;
  - data areas;
  - the readers and writers of little-endian integers;
  - LMS objects, the image header and the assembler's layout of the output;
  - the VM command table;
  - the disassembler.
- **The communication layer** (`EV3Communication`):
  - the byte helpers and the binary buffer;
  - the EV3 connection's packet framing, counters, reply checks and download
    and upload chunking.
- **The Small Basic extension** (`SmallBasicEV3Extension`):
  - the motor, sensor, button and brick command builders;
  - the EV3 file objects;
  - the user-function runtime `F` with its per-thread call stacks.
- **The explorer** (`EV3Explorer`):
  - the settings file;
  - the directory listing's entries, sorting and formatting.
- **The documentation generator.**
- **The native helper** `nativecode.c`: the `tablelookup` command run on the
  brick.

Each core source file becomes one module in a file of its own, and `Common.dfy`
holds what they share. The shared parts are:

- the `Option` and `Result` types;
- fixed-width wrap-around;
- little-endian byte sequences;
- the .NET string helpers that are used (upper-casing, trimming, searching and
  integer parsing).

How each kind of code is modelled:

- Objects whose fields the source updates in place become classes with
  `modifies` clauses. Examples are:
  - the byte-code buffers;
  - the data area;
  - the compiler's state;
  - the EV3 connection;
  - the file table;
  - the function runtime;
  - the native helper's file descriptor.
- Loops become methods, each proved against a specification function.
- Pure code becomes functions and lemmas.
- Transports, the file system, the clock and callbacks into Basic code are
  parameters.

Integer widths are explicit where the source relies on them:

- the 32- and 16-bit wrap-around of C# `int` and `short`;
- `sbyte` casts;
- the C `unsigned long` offset;
- the signedness of C `char`.

## Model

| member | source | states |
|---|---|---|
| ByteFunctions.Keep | SmallBasicEV3Extension/Byte.cs:38-63 | masking with `& 0xff` keeps a value in 0..255 |
| ByteFunctions.KeepIsMod | SmallBasicEV3Extension/Byte.cs:38-63 | keeping the low n bits is reduction modulo 2^n, also for negative values |
| ByteFunctions.BitwiseDigit | SmallBasicEV3Extension/Byte.cs:44-63 | each bit of AND, OR and XOR is the operation on the operands' bits at that position |
| ByteFunctions.NotDigit | SmallBasicEV3Extension/Byte.cs:38-42 | NOT flips each of the eight low bits |
| ByteFunctions.NotNot | SmallBasicEV3Extension/Byte.cs:38-42 | NOT applied twice gives back the low byte of the value |
| ByteFunctions.XorCancels | SmallBasicEV3Extension/Byte.cs:44-63 | XOR by the same value twice restores the low byte; AND and OR of a value with itself are its low byte; XOR of a value with itself is 0 |
| ByteFunctions.DeMorgan | SmallBasicEV3Extension/Byte.cs:38-56 | NOT of AND equals the OR of the NOTs |
| ByteFunctions.BitIsDigit | SmallBasicEV3Extension/Byte.cs:65-71 | BIT with index 0..7 reads that digit of the two's-complement expansion |
| ByteFunctions.BitOfBitwise | SmallBasicEV3Extension/Byte.cs:38-71 | BIT of AND, OR, XOR and NOT is the logical operation on BIT of the operands |
| ByteFunctions.ShrThenShl | SmallBasicEV3Extension/Byte.cs:73-89 | for a distance 1..7, SHR then SHL of a byte clears exactly its low bits |
| ByteFunctions.ToHex | SmallBasicEV3Extension/Byte.cs:91-96 | the result is two upper-case hexadecimal digits |
| ByteFunctions.HexValue | SmallBasicEV3Extension/Byte.cs:107-118 | a character has a digit value exactly when it is 0-9, a-f or A-F, and that value is below 16 |
| ByteFunctions.FromHex | SmallBasicEV3Extension/Byte.cs:107-118 | null reads as "0"; the result is the low byte of the accumulated hexadecimal digits, other characters skipped |
| ByteFunctions.FromHexLastTwo | SmallBasicEV3Extension/Byte.cs:107-118 | the result depends only on the last two hexadecimal digits of the text |
| ByteFunctions.FromHexToHex | SmallBasicEV3Extension/Byte.cs:91-118 | FromHex of ToHex of v is the low byte of v |
| ByteFunctions.ToBinary | SmallBasicEV3Extension/Byte.cs:98-105 | the result is eight binary digits whose value is the low byte of v |
| ByteFunctions.BinaryValueOfBinary | SmallBasicEV3Extension/Byte.cs:98-105 | the unpadded binary numeral reads back as the number |
| ByteFunctions.BinaryLength | SmallBasicEV3Extension/Byte.cs:98-105 | the binary numeral of a byte has at most eight digits, so padding only adds zeros |
| ByteFunctions.FromBinary | SmallBasicEV3Extension/Byte.cs:120-129 | null reads as "0"; the result is the low byte of the value of the '0' and '1' characters, others skipped |
| ByteFunctions.FromBinaryLastEight | SmallBasicEV3Extension/Byte.cs:120-129 | the result is the number the last eight binary digits denote |
| BinaryBuffer.LowByte | EV3Communication/BinaryBuffer.cs:56-66 | the byte appended for i is the low eight bits of i: it differs from i by a multiple of 256 |
| BinaryBuffer.CharByte | EV3Communication/BinaryBuffer.cs:101-115 | a character is sent as its code when that is 1..255 and as 1 otherwise, so never as 0 |
| BinaryBuffer.TextBytesNonZero | EV3Communication/BinaryBuffer.cs:101-115 | the text bytes of any string contain no terminating zero |
| BinaryBuffer.Buffer.constructor | EV3Communication/BinaryBuffer.cs:29-33 | a new buffer has a 20-byte array and no contents |
| BinaryBuffer.Buffer.Length | EV3Communication/BinaryBuffer.cs:35-38 | the length is the number of bytes appended |
| BinaryBuffer.Buffer.Clear | EV3Communication/BinaryBuffer.cs:40-43 | clearing empties the contents and keeps the array |
| BinaryBuffer.Buffer.Append8 | EV3Communication/BinaryBuffer.cs:56-66 | appends the low byte of i; a full array is replaced by one twice as large, otherwise the array is kept |
| BinaryBuffer.Buffer.Append16 | EV3Communication/BinaryBuffer.cs:68-72 | appends the two low bytes of i, least significant first |
| BinaryBuffer.Buffer.Append32 | EV3Communication/BinaryBuffer.cs:74-80 | appends the four low bytes of i, least significant first |
| BinaryBuffer.Buffer.AppendBytes | EV3Communication/BinaryBuffer.cs:82-93 | appends exactly the given bytes |
| BinaryBuffer.Buffer.AppendNonZeroTerminated | EV3Communication/BinaryBuffer.cs:101-115 | appends one byte per character, as CharByte gives it |
| BinaryBuffer.Buffer.AppendZeroTerminated | EV3Communication/BinaryBuffer.cs:95-99 | appends the text bytes and then a single 0 |
| BinaryBuffer.Buffer.CopyToArray | EV3Communication/BinaryBuffer.cs:45-48 | the target array gets the contents at the position and is unchanged before and after them |
| BinaryBuffer.Buffer.CopyTo | EV3Communication/BinaryBuffer.cs:50-54 | the target's contents grow by this buffer's old contents, also when the target is this buffer; a distinct source is unchanged |
| BinaryBuffer.Extract16 | EV3Communication/BinaryBuffer.cs:118-123 | the value is the unsigned little-endian reading of the two bytes at position |
| BinaryBuffer.Extract16RoundTrip | EV3Communication/BinaryBuffer.cs:68-123 | Extract16 reads back the low 16 bits of what Append16 stored, whatever precedes and follows |
| BinaryBuffer.Extract32 | EV3Communication/BinaryBuffer.cs:124-131 | as written, the second byte fills bits 8..15 and again 16..23, the third bits 24..31, and the result is wrapped to a 32-bit int |
| BinaryBuffer.Extract32IgnoresFourthByte | EV3Communication/BinaryBuffer.cs:124-131 | as written, the fourth byte has no influence on the result |
| BinaryBuffer.Extract32NotInverse | EV3Communication/BinaryBuffer.cs:74-131 | as written, Extract32 of what Append32(65536) stored is 16777216 |
| BinaryBuffer.Extract32Intended | EV3Communication/BinaryBuffer.cs:124-131 | the corrected read is a 32-bit int |
| BinaryBuffer.Extract32IntendedRoundTrip | EV3Communication/BinaryBuffer.cs:74-131 | the corrected read gives back every int Append32 stored |
| ByteCodeBuffer.ConstBytes | EV3Communication/ByteCodeBuffer.cs:34-55 | a parameter takes one byte exactly when it lies in -32..31, and at most five bytes |
| ByteCodeBuffer.VarBytes | EV3Communication/ByteCodeBuffer.cs:57-101 | a variable index takes one byte exactly when it is at most 31, and at most five bytes |
| ByteCodeBuffer.StringBytes | EV3Communication/ByteCodeBuffer.cs:103-107 | a string is 0x84, one non-zero byte per character, then a zero |
| ByteCodeBuffer.OP | EV3Communication/ByteCodeBuffer.cs:29-32 | appends the opcode byte and nothing else |
| ByteCodeBuffer.CONST | EV3Communication/ByteCodeBuffer.cs:34-55 | appends ConstBytes(par): the short form, or lead byte 0x81/0x82/0x83 and 1, 2 or 4 little-endian bytes |
| ByteCodeBuffer.GLOBVAR | EV3Communication/ByteCodeBuffer.cs:57-78 | appends the global-variable encoding of the index (0x60 short form, 0xe1/0xe2/0xe3 long forms) |
| ByteCodeBuffer.LOCVAR | EV3Communication/ByteCodeBuffer.cs:80-101 | appends the local-variable encoding of the index (0x40 short form, 0xc1/0xc2/0xc3 long forms) |
| ByteCodeBuffer.STRING | EV3Communication/ByteCodeBuffer.cs:103-107 | appends StringBytes(text) |
| ByteCodeBuffer.ConstRoundTrip | EV3Communication/ByteCodeBuffer.cs:34-55 | the disassembler decodes what CONST(par) wrote as the number par and consumes exactly those bytes |
| ByteCodeBuffer.GlobVarRoundTrip | EV3Communication/ByteCodeBuffer.cs:57-78 | the disassembler decodes what GLOBVAR(index) wrote as that global variable, for the indices it reads back |
| ByteCodeBuffer.LocVarRoundTrip | EV3Communication/ByteCodeBuffer.cs:80-101 | the disassembler decodes what LOCVAR(index) wrote as that local variable, for the indices it reads back |
| ByteCodeBuffer.GlobVarMisread | EV3Communication/ByteCodeBuffer.cs:62-66 | GLOBVAR(200) uses the one-byte long form, which the disassembler reads sign-extended as GLOBAL-56 |
| ByteCodeBuffer.StringRoundTrip | EV3Communication/ByteCodeBuffer.cs:103-107 | STRING(text) decodes to the text with every character outside 1..255 sent as code 1 |
| ByteCodeBuffer.SentText | EV3Communication/BinaryBuffer.cs:101-115 | the brick receives one character per character, and the text itself when every code is in 1..255 |
| Buttons.FlagsPicked | SmallBasicEV3Extension/Buttons.cs:144-173 | the flags are the letters of the clicked buttons taken one slot at a time in the order up, enter, down, left, right |
| Buttons.FlagsExact | SmallBasicEV3Extension/Buttons.cs:144-173 | the flags contain each of U, E, D, L, R exactly when its reply byte (1, 2, 3, 5, 4) is non-zero, in that order and without repetition |
| Buttons.OtherButtonIgnored | SmallBasicEV3Extension/Buttons.cs:144-173 | the reply byte in slot 0 (any other button) never changes the flags |
| DataArea.AlignUp | LMSAssembler/DataArea.cs:74-81 | the padded end is the least multiple of the element length at or after the old end |
| DataArea.Area.constructor | LMSAssembler/DataArea.cs:51-56 | a new area is empty, ends at 0 and has seen no non-parameter |
| DataArea.Area.Add | LMSAssembler/DataArea.cs:58-85 | a duplicate name fails with "already in use"; a parameter after a non-parameter, or one that would need padding, fails; otherwise the element is placed at the aligned end, the end advances by length * number, and the extents stay pairwise disjoint; a failure changes nothing |
| DataArea.Area.Pad | LMSAssembler/DataArea.cs:74-81 | the padding loop stops at the aligned end |
| DataArea.Area.TotalBytes | LMSAssembler/DataArea.cs:87-90 | every element lies below the total |
| DataArea.Area.Get | LMSAssembler/DataArea.cs:92-99 | an element is found exactly when its name was added, and it carries that name |
| DataArea.Area.Place | LMSAssembler/DataArea.cs:74-84 | the element is placed at the old end rounded up to its length, the end advances by length * number, and the layout stays valid |
| DataArea.PlaceKeepsLayout | LMSAssembler/DataArea.cs:83-84 | placing a new element at or after the end keeps the layout invariant: keyed by name, aligned, disjoint, below the end |
| DataArea.AddKeepsDisjoint | LMSAssembler/DataArea.cs:83-84 | an extent placed after every existing one overlaps none of them |
| DataReader.InStream.ReadByte | LMSAssembler/DataReader.cs:15 | Stream.ReadByte yields the next byte, or -1 at the end without moving |
| DataReader.ByteAt | LMSAssembler/DataReader.cs:15 | ReadByte() & 0xff is the byte, or 0xff past the end |
| DataReader.ReadMasked | LMSAssembler/DataReader.cs:15 | one masked read gives ByteAt at the stream position and moves at most to the end |
| DataReader.Read32 | LMSAssembler/DataReader.cs:13-21 | the value is the 32-bit signed little-endian reading of the next four masked bytes; readposition grows by 4 |
| DataReader.Read16 | LMSAssembler/DataReader.cs:23-29 | the value is the (short) of the little-endian reading of the next two masked bytes; readposition grows by 2 |
| DataReader.Read8 | LMSAssembler/DataReader.cs:31-36 | the value is the (sbyte) of the next masked byte; readposition grows by 1 |
| DataReader.Read32OfWrite32 | LMSAssembler/DataReader.cs:13-21 | Read32 gives back every int that Write32 wrote |
| DataReader.Read16OfWrite16 | LMSAssembler/DataReader.cs:23-29 | Read16 gives back every 16-bit value that Write16 wrote |
| DataReader.Read32PastEnd | LMSAssembler/DataReader.cs:13-21 | a 32-bit read entirely past the end gives -1 |
| DataWriter.OutStream.WriteByte | LMSAssembler/DataWriter.cs:30 | one byte is appended to the stream |
| DataWriter.Le32 | LMSAssembler/DataWriter.cs:28-34 | byte k is (value >> 8k) & 0xff, and the four bytes read little-endian give value modulo 2^32 |
| DataWriter.Le16 | LMSAssembler/DataWriter.cs:36-40 | byte k is (value >> 8k) & 0xff, and the two bytes read little-endian give value modulo 2^16 |
| DataWriter.Write32 | LMSAssembler/DataWriter.cs:28-34 | the stream grows by Le32(value) |
| DataWriter.Write16 | LMSAssembler/DataWriter.cs:36-40 | the stream grows by Le16(value) |
| DataWriter.Le16Periodic | LMSAssembler/DataWriter.cs:36-40 | Write16 only sees the low 16 bits of its argument |
| DataTypeChecker.CheckIntConstant | LMSAssembler/DataType.cs:65-96 | an int constant is accepted exactly for a Read parameter whose type can hold it (I8, I16/VMThread, I32); ReadMany I8 gets the string-or-variable message |
| DataTypeChecker.CheckFloatConstant | LMSAssembler/DataType.cs:98-108 | a float literal is accepted exactly for a Read parameter of type F or Unspecified |
| DataTypeChecker.CheckStringLiteral | LMSAssembler/DataType.cs:110-120 | a string literal is accepted exactly for an I8 parameter that is Read or ReadMany |
| DataTypeChecker.Check | LMSAssembler/DataType.cs:52-121 | per kind of argument, when it passes: a variable of the parameter's type (or an Unspecified parameter), the three constant rules above, and anything else always |
| DirectoryEntries.FileSize | EV3Explorer/DirectoryEntry.cs:34-36 | a directory shows no size, exactly; a file shows the decimal digits of its size |
| DirectoryEntries.FileType | EV3Explorer/DirectoryEntry.cs:37-69 | a directory is a "Folder", and the type is one of the six names or "" |
| DirectoryEntries.FileTypeByExtension | EV3Explorer/DirectoryEntry.cs:37-69 | for a file, each type holds exactly when the name ends, in any case, in one of that type's extensions |
| DirectoryEntries.IsCompileable | EV3Explorer/DirectoryEntry.cs:75-88 | only a file can be compiled |
| DirectoryEntries.IsRunable | EV3Explorer/DirectoryEntry.cs:90-100 | only a file can be run |
| DirectoryEntries.CapabilitiesFollowType | EV3Explorer/DirectoryEntry.cs:37-100 | an entry is compileable exactly when it is a Basic or Assembler file and runnable exactly when it is an Executable |
| LibraryEntries.DecodeType | EV3BasicCompiler/LibraryEntry.cs:63-73 | a letter other than F, S, A, X, V fails with "Can not read runtime library" |
| LibraryEntries.DecodeTypeLetter | EV3BasicCompiler/LibraryEntry.cs:63-73 | every type's letter decodes back to that type |
| LibraryEntries.DecodedLetter | EV3BasicCompiler/LibraryEntry.cs:63-73 | a letter that decodes is one of F, S, A, X, V and is the letter of its type |
| LibraryEntries.InlineBlock | EV3BasicCompiler/LibraryEntry.cs:54-59 | the inlined code of "head{ text\n}tail" is the trimmed text without the character before the closing brace |
| LibraryEntries.NewLibraryEntry | EV3BasicCompiler/LibraryEntry.cs:35-61 | succeeds exactly when every descriptor letter decodes (and the inline braces are usable); the return type comes from the last letter, the parameter types from the others, the references are the remaining first-line words |
| LibraryEntries.DecodeParameters | EV3BasicCompiler/LibraryEntry.cs:41-45 | the parameter types are the decoded letters except the last, and any undecodable one fails with the library message |
| VMCommand.HexByte | LMSAssembler/VMCommand.cs:42-49 | two hexadecimal digits in either case give 16 * first + second; a '+' sign, which Convert.ToInt32 skips, followed by one digit gives that digit; anything else fails |
| VMCommand.SignedOpcode | LMSAssembler/VMCommand.cs:39-49 | a "+F" opcode field reads as 0x0F, and "+1+2" as the two bytes 1 and 2 |
| VMCommand.Header | LMSAssembler/VMCommand.cs:39-57 | a 2-character first token with a name gives one opcode byte and parameters from token 2; a 4-character one with two name words gives two bytes and parameters from token 3; anything else fails |
| VMCommand.ParamType | LMSAssembler/VMCommand.cs:64-104 | the value types are chosen by prefix (8, 16, 32, F, ?) and L, T, S, P only as the whole token |
| VMCommand.ParamAccess | LMSAssembler/VMCommand.cs:106-117 | a trailing '*' is Write, otherwise a trailing '+' is ReadMany, otherwise Read; never ReadWrite |
| VMCommand.ParseParameters | LMSAssembler/VMCommand.cs:59-118 | succeeds exactly when every parameter token names a type, with the descriptor in the message otherwise; types and access modes are read token by token |
| VMCommand.NewCommand | LMSAssembler/VMCommand.cs:34-119 | a descriptor line yields a command exactly when its header and every parameter token parse, and the command holds the header's opcode and name and one type and access mode per token |
| SensorPorts.DecodePort | SmallBasicEV3Extension/Sensor.cs:373-389 | layer and number are each in 0..3; a port 1..16 is 4 * layer + number + 1; a missing, unparsable or out-of-range port is layer 0, number 0 |
| SensorPorts.DecodePortInverse | SmallBasicEV3Extension/Sensor.cs:373-389 | for ports 1..16, 4 * layer + number + 1 is the port |
| SensorPorts.DecodeRaw | SmallBasicEV3Extension/Sensor.cs:391-398 | the value is the 32-bit signed little-endian reading of the four bytes |
| SensorPorts.ReadPercent | SmallBasicEV3Extension/Sensor.cs:227-235 | the percentage is in 0..127: the reply byte when it is at most 127; 0 for a byte above 127, an empty reply or none |
| SensorPorts.PercentIsSignedByte | SmallBasicEV3Extension/Sensor.cs:233-234 | the percentage is the reply byte read as a signed byte, negative values giving 0 |
| SensorPorts.RawElement | SmallBasicEV3Extension/Sensor.cs:279-284 | an element is 0 when the reply lacks its four bytes, the decoded raw value when that is at least -1000000000, and 0 below |
| SensorPorts.RawReadsBack | SmallBasicEV3Extension/Sensor.cs:279-284 | any 32-bit value sent as four little-endian bytes at an element's place reads back as itself, or 0 below -1000000000 |
| SensorPorts.ReadRaw | SmallBasicEV3Extension/Sensor.cs:251-286 | a count of 0 or less gives an empty array; otherwise one element per requested value, each RawElement of the reply |
| SensorPorts.RawBeyondReply | SmallBasicEV3Extension/Sensor.cs:280-284 | a value beyond the reply reads as 0 |
| SensorPorts.WriteCount | SmallBasicEV3Extension/Sensor.cs:313-324 | the write count is the parsed count when in 0..31, 0 below, 31 above |
| SensorPorts.ReadCount | SmallBasicEV3Extension/Sensor.cs:325-336 | the read count is the parsed count when in 1..32, 1 below, 32 above |
| SensorPorts.CountsAreClamped | SmallBasicEV3Extension/Sensor.cs:313-336 | the two counts equal min(max(parsed, 0), 31) and min(max(parsed, 1), 32) |
| SensorPorts.AddressByte | SmallBasicEV3Extension/Sensor.cs:309-342 | the address byte is in 0..127 and agrees with the parsed address in its low seven bits, as addr & 0x7f does, also for negative or large addresses |
| SensorPorts.AddressReadsBack | SmallBasicEV3Extension/Sensor.cs:309-342 | an int address written as text is sent as its value modulo 128, unchanged for 0..127 |
| SensorPorts.I2CResult | SmallBasicEV3Extension/Sensor.cs:364-369 | the array has rd elements: the reply reversed when it has exactly rd bytes, all zeros otherwise |
| EV3Brick.ColorBase | SmallBasicEV3Extension/EV3.cs:52-65 | the colour code is 1, 2 or 3 exactly for GREEN, RED, ORANGE in any case, and 0 otherwise |
| EV3Brick.EffectOffset | SmallBasicEV3Extension/EV3.cs:66-77 | an effect adds 0, 3 or 6 |
| EV3Brick.LEDCodeRange | SmallBasicEV3Extension/EV3.cs:50-83 | the LED code is in 0..9, is 0 exactly when no colour matches, and gives back the colour and the effect |
| EV3Brick.LEDCodeNormal | SmallBasicEV3Extension/EV3.cs:66-77 | a missing effect and NORMAL both leave the colour steady |
| EV3Brick.BrickName | SmallBasicEV3Extension/EV3.cs:159-191 | the name is the bytes before the first zero among the first 19 of a 20-byte reply, and "" without such a zero or reply |
| EV3Brick.SystemCallResult | SmallBasicEV3Extension/EV3.cs:209-214 | the result is -1 exactly for a missing or empty reply and the first byte otherwise |
| EV3Brick.NativeCodeResult | SmallBasicEV3Extension/EV3.cs:229-260 | the result is -1 exactly for a blank command or a reply shorter than 4 bytes, and byte 1 of the reply otherwise |
| MotorPorts.Layer | SmallBasicEV3Extension/Motor.cs:526-547 | the layer is in 0..3 |
| MotorPorts.Port | SmallBasicEV3Extension/Motor.cs:526-547 | the motor number is in -1..3 |
| MotorPorts.DecodePortDescriptor | SmallBasicEV3Extension/Motor.cs:526-547 | the loop over the descriptor yields Layer and Port: the last layer digit and the last port letter win |
| MotorPorts.DecodePortsDescriptor | SmallBasicEV3Extension/Motor.cs:549-570 | the loop over the descriptor yields Layer and the mask Ports |
| MotorPorts.DecodePortsChar | SmallBasicEV3Extension/Motor.cs:555-568 | one case of the switch: a layer digit replaces the layer and a port letter ORs in its bit |
| MotorPorts.PortsStep | SmallBasicEV3Extension/Motor.cs:555-568 | one more character ORs its port bit into the mask |
| MotorPorts.LayerStep | SmallBasicEV3Extension/Motor.cs:531-537 | one more character replaces the layer exactly when it is a layer digit |
| MotorPorts.PortsMask | SmallBasicEV3Extension/Motor.cs:549-570 | the mask is below 16 and bit n is set exactly when a letter of port n occurs in either case |
| MotorPorts.PortIsLast | SmallBasicEV3Extension/Motor.cs:526-547 | the port is -1 exactly when no port letter occurs, and otherwise is the port of a letter that occurs |
| Common.ParsedOrZero | SmallBasicEV3Extension/Motor.cs:91 | Int32.TryParse into the variable gives the parsed int, and 0 for a missing argument or text that is no int |
| MotorPorts.Clamped | SmallBasicEV3Extension/Motor.cs:90-129 | power and speed are clamped to -100..100 and passed unchanged inside it |
| MotorPorts.UnparsableIsZero | SmallBasicEV3Extension/Motor.cs:91 | text that is not an int sends power or speed 0 |
| MotorPorts.Direction | SmallBasicEV3Extension/Motor.cs:48 | the polarity is -1 exactly for "true" in any case and 1 otherwise |
| MotorPorts.Brake | SmallBasicEV3Extension/Motor.cs:69 | the brake flag is 1 exactly for "true" in any case and 0 otherwise |
| MotorPorts.Tacho | SmallBasicEV3Extension/Motor.cs:442-446 | the tacho count is an int congruent to the little-endian reading of the four reply bytes, 0 for a missing reply |
| MotorPorts.GetCount | SmallBasicEV3Extension/Motor.cs:424-449 | no port letter answers 0 without asking; otherwise the tacho count |
| MotorPorts.GetSpeed | SmallBasicEV3Extension/Motor.cs:161-184 | no port letter or no reply gives 0; otherwise the fifth reply byte as a signed byte, in -128..127 |
| MotorPorts.SyncForCountSends | SmallBasicEV3Extension/Motor.cs:350-372 | the command is sent exactly when the parsed count is positive |
| Documentation.TrimIndents | Documentation/DocumentationGenerator.cs:235-246 | a text without a line break, or whose first break is not followed by a space, is returned as it is; the result keeps the first line with its break and never grows |
| Documentation.TrimmedLast | Documentation/DocumentationGenerator.cs:176 | a trimmed summary never ends in a line break, so s[idx+1] is always inside the text |
| Documentation.TrimKeepsIndentedBreaks | Documentation/DocumentationGenerator.cs:240 | trimming the text after a line keeps every remaining break followed by a space |
| Documentation.NoIndentAfterBreaks | Documentation/DocumentationGenerator.cs:235-246 | when every line break of the text is followed by a space, no line of the result starts with a blank |
| Documentation.WithoutParameters | Documentation/DocumentationGenerator.cs:181-185 | the name loses everything from the first '(' on |
| Documentation.MemberName | Documentation/DocumentationGenerator.cs:179-202 | the lookup fails (LastIndexOf with a negative start) exactly for a non-type member whose name has no dot after its first character |
| Documentation.MemberNameSegments | Documentation/DocumentationGenerator.cs:179-202 | a type keeps the part after its last dot; any other member keeps a suffix holding only its last dot, i.e. its last two segments |
| Documentation.GetParameterList | Documentation/DocumentationGenerator.cs:276-294 | the list is "(" + the parameter names joined by ", " + ")" |
| Disassembler.DecodeExtra | LMSAssembler/Assembler.cs:1068-1081 | the low three bits of the lead byte select a sign-extended 1-, 2- or 4-byte little-endian value; any other selector is the "Can not decode parameter" error |
| Disassembler.ReadExtraBytes | LMSAssembler/Assembler.cs:1068-1081 | returns the value DecodeExtra gives and advances the stream and the byte count by its width; on the error nothing is read |
| Disassembler.StringScan | LMSAssembler/Assembler.cs:1017-1028 | a found string lies before the first zero byte, holds no zero, and its characters are the bytes in order |
| Disassembler.ReadString | LMSAssembler/Assembler.cs:1019-1028 | reads exactly the string StringScan finds and its terminating zero; None when the data ends first |
| Disassembler.DecodeStringLead | LMSAssembler/Assembler.cs:1013-1028 | a string lead byte followed by a terminated string decodes to that string, occupying lead byte, characters and zero |
| Disassembler.ReadParameter | LMSAssembler/Assembler.cs:982-1066 | the text of the operand DecodeParameter finds (short constants and variables, strings, long constants, labels, local and global values and handles), with the stream advanced by its size; decoding errors are returned |
| Disassembler.StringLoopNeverEndsAtEnd | LMSAssembler/Assembler.cs:1019-1028 | once the stream is exhausted the string loop as written never returns, however many iterations it runs |
| Disassembler.UnterminatedLiteralHangs | LMSAssembler/Assembler.cs:1019-1028 | on the image [0x80] the loop as written never ends while the decoder reports an unterminated literal |
| Disassembler.StringLoopAgrees | LMSAssembler/Assembler.cs:1019-1028 | when the terminating zero is present the loop as written returns the string the decoder finds |
| Disassembler.FindCommand | LMSAssembler/Assembler.cs:961-978 | a found command is in the table with exactly those opcode bytes; None exactly when no command has them |
| Disassembler.DecodeOpCode | LMSAssembler/Assembler.cs:952-980 | the CALL byte 0x09 gives no command after one byte; otherwise the command is in the table and its opcode is the one or two bytes read |
| Disassembler.SearchCommand | LMSAssembler/Assembler.cs:961-968 | the loop over the table finds the same command as FindCommand |
| Disassembler.ReadOpCode | LMSAssembler/Assembler.cs:952-980 | returns what DecodeOpCode gives, advancing the stream and byte count by the opcode's width, and the "Unrecognized opcode" error with both bytes |
| Disassembler.Spaces | LMSAssembler/Assembler.cs:1086-1089 | n blanks |
| Disassembler.Format | LMSAssembler/Assembler.cs:1083-1091 | the decimal numeral left-padded with blanks to at least the requested width |
| Disassembler.FormatTrims | LMSAssembler/Assembler.cs:1083-1091 | the padded field is exactly max(places, numeral width) wide and trimming its leading blanks gives the numeral back |
| LMSAssembler.DecodeOctal | LMSAssembler/Assembler.cs:778-784 | three characters are read as octal digits; a first digit 0-3 and two more 0-7 give a value in 0..255 |
| LMSAssembler.Unescaped | LMSAssembler/Assembler.cs:756-777 | unescaping never lengthens the text and keeps a first character that does not start an escape |
| LMSAssembler.Unescape | LMSAssembler/Assembler.cs:756-777 | the in-place rewriting loop, whose cursor moves past each replacement, produces exactly Unescaped of its input |
| LMSAssembler.EscapeStep | LMSAssembler/Assembler.cs:762-773 | replacing one escape by the character it denotes keeps the unescaping of the whole text |
| LMSAssembler.NoEscapes | LMSAssembler/Assembler.cs:756-777 | a text without backslashes is its own unescaping |
| LMSAssembler.WordEnd | LMSAssembler/Assembler.cs:677-698 | an identifier or number token extends over token characters up to the first other character or the end of the line |
| LMSAssembler.QuoteEnd | LMSAssembler/Assembler.cs:654-671 | finds the first quote from a position on, and None exactly when there is none |
| LMSAssembler.Tokens | LMSAssembler/Assembler.cs:637-712 | every token produced is a closing brace, a quoted string or an upper-cased identifier or number |
| LMSAssembler.UpperPlain | LMSAssembler/Assembler.cs:672-698 | the upper-cased text of an identifier or number token is still one |
| LMSAssembler.TokenizeLine | LMSAssembler/Assembler.cs:637-712 | the scanning loop yields exactly the tokens Tokens describes, with the "Nonterminated string" and "Unknown letter" errors |
| LMSAssembler.CommentIgnored | LMSAssembler/Assembler.cs:646-649 | what follows a '/' outside a string literal never changes the tokens |
| LMSAssembler.FetchID | LMSAssembler/Assembler.cs:714-730 | accepts exactly a present token, last when it must be, starting with an upper-case letter or '_', and returns it; a missing one is "Identifier expected" |
| LMSAssembler.FetchNumber | LMSAssembler/Assembler.cs:732-753 | accepts exactly a present token, last when it must be, that parses as a 64-bit integer in 1..32767; an unparsable one is "Number expected" |
| LMSAssembler.FetchNumeral | LMSAssembler/Assembler.cs:732-753 | the decimal numeral of any n in 1..32767 is accepted as n |
| LMSAssembler.LabelName | LMSAssembler/Assembler.cs:383-390 | a label "name:" is accepted exactly when its only ':' is the trailing one, and declares the name before it |
| LMSAssembler.CountParameters | LMSAssembler/Assembler.cs:419-515 | without a parameter-count type the line is accepted exactly when it has one operand per parameter; an accepted count ends the line exactly, and is either the parameter count or set by a count operand in 0..1000000000 |
| LMSAssembler.ImageHeader | LMSAssembler/Assembler.cs:616-625 | the image header is 16 bytes starting with "LEGO" |
| LMSAssembler.Assembler.constructor | LMSAssembler/Assembler.cs:74-76 | a new assembler has no objects and empty global data |
| LMSAssembler.Assembler.IdsAreOneToN | LMSAssembler/Assembler.cs:137-139 | the object ids are exactly 1..n, one object for each |
| LMSAssembler.Assembler.NewObject | LMSAssembler/Assembler.cs:155-156 | a new thread or subcall gets the next id and is added under its name, keeping the numbering |
| LMSAssembler.NumberedExtend | LMSAssembler/Assembler.cs:155-156 | adding a new name with id n+1 keeps the ids numbered 1..n+1 in creation order |
| LMSAssembler.SortById | LMSAssembler/Assembler.cs:597-604 | places each object at index id-1 of the array |
| LMSAssembler.WriteBodies | LMSAssembler/Assembler.cs:607-613 | writes every body in id order into one buffer, each told the offset it will have in the image; succeeds exactly when every body does |
| LMSAssembler.WriteHeaders | LMSAssembler/Assembler.cs:626-632 | appends the twelve-byte header record of every object in id order |
| LMSAssembler.Assembler.GenerateOutput | LMSAssembler/Assembler.cs:595-636 | the output is the image header, the object headers and the bodies in id order, each object placed at its body's offset; an object whose body fails leaves the output untouched |
| LMSObjects.ConstEncoding | LMSAssembler/LMSObject.cs:74-94 | the shortest of the 1-, 2-, 3- and 5-byte forms that holds the value and is at least the minimum length asked for |
| LMSObjects.VariableEncoding | LMSAssembler/LMSObject.cs:96-121 | indices up to 31 take one byte, larger ones a lead byte and 1, 2 or 4 value bytes |
| LMSObjects.AcceptedPrefix | LMSAssembler/LMSObject.cs:122-135 | the longest prefix of characters with codes 1..255, which ends at the first other character |
| LMSObjects.Resolve | LMSAssembler/LMSObject.cs:222-256 | the value patched in for a reference is a 32-bit integer |
| LMSObjects.WindowByte | LMSAssembler/LMSObject.cs:222-256 | each byte of a reference window in the patched code is the corresponding byte of the reference's value |
| LMSObjects.StepOutside | LMSAssembler/LMSObject.cs:222-260 | the patching walk moves from one position outside the reference windows to the next |
| LMSObjects.EmitFrom | LMSAssembler/LMSObject.cs:214-262 | with every label resolved, the walk from any position outside a window writes exactly the patched bytes from there on, without error |
| LMSObjects.PatchedCode | LMSAssembler/LMSObject.cs:214-262 | with every label resolved, the patched code has the original length, keeps every byte outside the reference windows and holds each reference's value in its window |
| LMSObjects.PatchedJump | LMSAssembler/LMSObject.cs:242-253 | a patched jump reference is the 0x83 lead and the distance from the end of its parameter to the label |
| LMSObjects.ResolveJump | LMSAssembler/LMSObject.cs:242-253 | a plain label reference resolves to the label's position minus the position after the four value bytes |
| LMSObjects.Window | LMSAssembler/LMSObject.cs:222-256 | the five bytes around any reference in the patched code are 0x83 and its value |
| LMSObjects.ForwardReferenceReadsBack | LMSAssembler/LMSObject.cs:149-189 | a patched forward jump is read back by the disassembler as the same distance a backward reference would encode |
| LMSObjects.ConstEncodingReadsBack | LMSAssembler/LMSObject.cs:74-94 | any 32-bit constant is decoded back as itself, over exactly the bytes written, whatever the minimum length |
| LMSObjects.ShortConstReadsBack | LMSAssembler/LMSObject.cs:76-79 | a constant in -32..31 written in one byte decodes back as itself |
| LMSObjects.LongConstReadsBack | LMSAssembler/LMSObject.cs:80-94 | the 0x81, 0x82 and 0x83 forms decode back as the constant over 2, 3 and 5 bytes |
| LMSObjects.ConstEncodingIsConst | LMSAssembler/LMSObject.cs:74-94 | the assembler's constant encoding and the runtime's CONST encoding agree |
| LMSObjects.VariableEncodingReadsBack | LMSAssembler/LMSObject.cs:96-121 | every non-negative 32-bit index decodes back as the same local or global variable |
| LMSObjects.ShortVariableReadsBack | LMSAssembler/LMSObject.cs:102-105 | a one-byte variable reference decodes back as the same variable |
| LMSObjects.LongVariableReadsBack | LMSAssembler/LMSObject.cs:106-120 | a long variable reference decodes back as the same variable |
| LMSObjects.LiteralEncodingReadsBack | LMSAssembler/LMSObject.cs:122-135 | an accepted string literal decodes back as the same text over its length plus two bytes |
| LMSObjects.LiteralScan | LMSAssembler/LMSObject.cs:122-135 | the encoding starts with a string lead byte and scans to the text |
| LMSObjects.AcceptedText | LMSAssembler/LMSObject.cs:122-135 | the characters of an accepted text are their own byte values |
| LMSObjects.BackwardReferenceReadsBack | LMSAssembler/LMSObject.cs:149-180 | a reference to a known label decodes back as the distance from the end of the encoded parameter to the label |
| LMSObjects.Descriptor | LMSAssembler/LMSObject.cs:396-429 | the top two bits carry the access (input, output, both) and the low bits the type, 0x04 for a string with its size following |
| LMSObjects.CheckArgumentsMeaning | LMSAssembler/LMSObject.cs:445-448 | a CALL's arguments pass exactly when each fits its parameter's type and access |
| LMSObjects.CheckCallsMeaning | LMSAssembler/LMSObject.cs:439-449 | the recorded CALLs pass exactly when each has one argument per parameter and every argument fits |
| LMSObjects.LMSObject.constructor | LMSAssembler/LMSObject.cs:40-49 | a new object has no code, labels, references or local data and offset 0 |
| LMSObjects.LMSObject.StartCode | LMSAssembler/LMSObject.cs:51-58 | starting code twice, or for an alias, is "Duplicate definition"; otherwise the code starts empty |
| LMSObjects.LMSObject.SetImplementation | LMSAssembler/LMSObject.cs:335-342 | making a subcall an alias after it has code or an alias is "Duplicate definition"; otherwise it records the alias |
| LMSObjects.LMSObject.AddConstant | LMSAssembler/LMSObject.cs:74-94 | appends the constant's encoding to the code |
| LMSObjects.LMSObject.AddOpCode | LMSAssembler/LMSObject.cs:60-67 | appends the opcode byte and a second opcode byte as a constant |
| LMSObjects.LMSObject.AddVariableReference | LMSAssembler/LMSObject.cs:96-121 | a negative index is an error and writes nothing; otherwise appends the variable's encoding |
| LMSObjects.LMSObject.AddStringLiteral | LMSAssembler/LMSObject.cs:122-135 | appends 0x80, the character codes and 0; a character outside 1..255 is an error after the accepted prefix was written |
| LMSObjects.LMSObject.AddLabelReference | LMSAssembler/LMSObject.cs:149-189 | a known label is written at once as a backward reference; another gets a 5-byte placeholder recorded for patching |
| LMSObjects.LMSObject.AddLabelDifference | LMSAssembler/LMSObject.cs:191-196 | appends a placeholder and records the "A:B" descriptor at its value bytes |
| LMSObjects.LMSObject.AddPlaceholder | LMSAssembler/LMSObject.cs:181-188 | appends a placeholder and records the label at its value bytes |
| LMSObjects.LMSObject.MemorizeLabel | LMSAssembler/LMSObject.cs:198-201 | records the current code length as the label's position |
| LMSObjects.LMSObject.MemorizeIOParameter | LMSAssembler/LMSObject.cs:345-350 | a thread rejects IO parameters; a subcall records the type, access and size 0 |
| LMSObjects.LMSObject.MemorizeStringIOParameter | LMSAssembler/LMSObject.cs:351-361 | succeeds exactly for a subcall and a size in 1..255, recording an I8 string parameter; errors change nothing |
| LMSObjects.LMSObject.StartCallerMemorization | LMSAssembler/LMSObject.cs:363-366 | opens an empty argument list for a new CALL |
| LMSObjects.LMSObject.MemorizeCallerParameter | LMSAssembler/LMSObject.cs:368-371 | adds the argument to the last CALL's list |
| LMSObjects.LMSObject.WriteByteCodes | LMSAssembler/LMSObject.cs:214-262 | records the offset; code never started is "Unresolved subcall"; otherwise writes the patched code, with the unresolved-label errors |
| LMSObjects.LMSObject.WriteHeader | LMSAssembler/LMSObject.cs:291-297 | appends the object's twelve-byte header record |
| LMSObjects.LMSObject.WriteThreadBody | LMSAssembler/LMSObject.cs:298-302 | writes the patched code and OBJECT_END |
| LMSObjects.LMSObject.WriteSubCallBody | LMSAssembler/LMSObject.cs:381-450 | an alias writes nothing; otherwise the descriptors, the code, RETURN and OBJECT_END, then every recorded CALL is checked |
| LMSObjects.LMSObject.WriteBody | LMSAssembler/LMSObject.cs:298-302 | writes exactly the bytes Body gives, or returns its error; the offset is recorded unless the object is an alias |
| LMSObjects.LMSObject.Body | LMSAssembler/LMSObject.cs:298-450 | an alias contributes nothing, unstarted code is an error, a thread ends with OBJECT_END and a subcall starts with its descriptors and ends with RETURN, OBJECT_END |
| LMSObjects.LMSObject.WriteDescriptors | LMSAssembler/LMSObject.cs:390-430 | writes the parameter count and one descriptor per IO parameter |
| LMSObjects.LMSObject.CheckCallList | LMSAssembler/LMSObject.cs:439-449 | the test over the recorded CALLs returns what CheckCalls gives |
| LMSObjects.HeaderRecord | LMSAssembler/LMSObject.cs:373-379 | the header record is twelve bytes |
| LMSObjects.KeepsPlaced | LMSAssembler/LMSObject.cs:60-196 | appending to the code keeps every recorded reference and label in place |
| LMSObjects.EmitCode | LMSAssembler/LMSObject.cs:222-261 | the loop over the code writes exactly what Emit describes and stops with its error |
| Scanning.LineAt | EV3BasicCompiler/Scanner.cs:42-49 | the reader's lines end in a null: line n is present exactly when n is below the number of lines read |
| Scanning.NumberEnd | EV3BasicCompiler/Scanner.cs:162-167 | a number runs over digits and '.' up to the first other character or the end of the line |
| Scanning.IdentEnd | EV3BasicCompiler/Scanner.cs:210-224 | an identifier runs over letters, digits and '_' up to the first other character or the end of the line |
| Scanning.StringEnd | EV3BasicCompiler/Scanner.cs:174-196 | a closed string ends just after a quote that is not followed by another; an open one ran past the end of the line |
| Scanning.StringEndPlain | EV3BasicCompiler/Scanner.cs:174-196 | text without quotes followed by a single quote is a whole string ending right after that quote |
| Scanning.StringEndNoQuote | EV3BasicCompiler/Scanner.cs:176-181 | without a quote in the rest of the line the string is not terminated |
| Scanning.LexAtSound | EV3BasicCompiler/Scanner.cs:140-265 | the symbol found at a column that is no blank or comment is a number, string, identifier, keyword or special of the right extent and content |
| Scanning.LexSound | EV3BasicCompiler/Scanner.cs:114-266 | every scan of a line skips only blanks, yields EOL at the end or after a comment, a PRAGMA for a pragma line, and otherwise a well-formed symbol |
| Scanning.DoubledQuoteKept | EV3BasicCompiler/Scanner.cs:185-199 | a doubled quote stays in the string content as two quote characters |
| Scanning.DoubledQuoteSkipsNext | EV3BasicCompiler/Scanner.cs:184-196 | the character after a doubled quote is passed over unexamined, so the line `"a"""` is unterminated |
| Scanning.Scanner.constructor | EV3BasicCompiler/Scanner.cs:42-52 | the scanner starts at the first column of the first line with no symbol and nothing pushed back |
| Scanning.Scanner.StartFromBegin | EV3BasicCompiler/Scanner.cs:54-64 | rewinds to line 0, column 0, type EOF and empty content, with nothing pushed back |
| Scanning.Scanner.PushBack | EV3BasicCompiler/Scanner.cs:269-275 | pushes the current symbol and makes the given one current |
| Scanning.Scanner.GetSym | EV3BasicCompiler/Scanner.cs:105-267 | pops a pushed-back symbol first; otherwise EOF at the end of input, else the scan of the current line, moving to the next line after EOL or PRAGMA; an unterminated string is an error that leaves the symbol unchanged |
| Scanning.Scanner.ScanLine | EV3BasicCompiler/Scanner.cs:114-266 | the scanning loop leaves the scanner as Lex describes |
| Scanning.Scanner.ScanToken | EV3BasicCompiler/Scanner.cs:140-265 | the scan of one symbol gives exactly LexAt |
| Scanning.NumberRun | EV3BasicCompiler/Scanner.cs:164-167 | the loop ends where NumberEnd says |
| Scanning.IdentRun | EV3BasicCompiler/Scanner.cs:212-224 | the loop ends where IdentEnd says |
| Scanning.StringRun | EV3BasicCompiler/Scanner.cs:176-196 | the loop ends where StringEnd says |
| FunctionDefinitions.MantissaValue | EV3BasicCompiler/FunctionDefinition.cs:226 | a mantissa reads as a non-negative number made of its digits |
| FunctionDefinitions.FloatValue | EV3BasicCompiler/FunctionDefinition.cs:226 | the number double.TryParse reads from an accepted text is negative exactly when the trimmed text starts with '-' |
| FunctionDefinitions.Normal | EV3BasicCompiler/FunctionDefinition.cs:60-66 | moving trailing zeros into the exponent keeps the sign, leaves no trailing zero and keeps zero as zero |
| FunctionDefinitions.NormalValue | EV3BasicCompiler/FunctionDefinition.cs:60-66 | normalising a number does not change its value |
| FunctionDefinitions.WholeReadsBack | EV3BasicCompiler/FunctionDefinition.cs:60-66 | digits followed by zeros and ".0" read back as the digits times a power of ten |
| FunctionDefinitions.PointedReadsBack | EV3BasicCompiler/FunctionDefinition.cs:60-66 | digits with a point inside read back as the digits scaled down |
| FunctionDefinitions.FractionReadsBack | EV3BasicCompiler/FunctionDefinition.cs:60-66 | "0." followed by zeros and digits reads back as the digits scaled down |
| FunctionDefinitions.ZeroReadsBack | EV3BasicCompiler/FunctionDefinition.cs:60-66 | zero is written "0.0" and reads back as zero |
| FunctionDefinitions.SignedReadsBack | EV3BasicCompiler/FunctionDefinition.cs:60-66 | a plain numeral with or without '-' reads back with that sign and its value |
| FunctionDefinitions.PlainReadsBack | EV3BasicCompiler/FunctionDefinition.cs:60-66 | a nonzero number printed in plain notation has a point and reads back as the same sign, digits and exponent |
| FunctionDefinitions.LiteralReadsBack | EV3BasicCompiler/FunctionDefinition.cs:60-66 | the literal of any numeric default has a point, is accepted by the parser and reads back as the same number |
| FunctionDefinitions.LiteralValue | EV3BasicCompiler/FunctionDefinition.cs:60-66 | the literal of a numeric default denotes the default's value |
| FunctionDefinitions.LiteralExamples | EV3BasicCompiler/FunctionDefinition.cs:60-66 | 1e3 is written "1000.0" and 5 as "5.0" |
| FunctionDefinitions.FractionLiteralExamples | EV3BasicCompiler/FunctionDefinition.cs:60-66 | 1.50 is written "1.5" and -0.025 as "-0.025" |
| FunctionDefinitions.DeclaredParameter | EV3BasicCompiler/FunctionDefinition.cs:220-234 | a part "n:v" declares n upper-cased, with v as a number when it parses as one and as text otherwise |
| FunctionDefinitions.UndefaultedParameter | EV3BasicCompiler/FunctionDefinition.cs:236-240 | a part without a colon declares itself upper-cased with default 0 |
| FunctionDefinitions.ParamNameUpper | EV3BasicCompiler/FunctionDefinition.cs:220-240 | declared parameter names never contain lower-case letters |
| FunctionDefinitions.Temporaries | EV3BasicCompiler/FunctionDefinition.cs:182-185 | the n temporaries are the prefix followed by 0 .. n-1 |
| FunctionDefinitions.ParameterVariables | EV3BasicCompiler/FunctionDefinition.cs:175-181 | each variable collected is the prefix and the name of a parameter whose default has that type |
| FunctionDefinitions.TypeOfDefault | EV3BasicCompiler/FunctionDefinition.cs:92-96 | a parameter is Text exactly when its default is a text, and Number otherwise |
| FunctionDefinitions.FunctionDefinition.constructor | EV3BasicCompiler/FunctionDefinition.cs:38-48 | a new definition keeps its name, subroutine, parameters and defaults, with no temporaries and return type Void |
| FunctionDefinitions.FunctionDefinition.FindParameter | EV3BasicCompiler/FunctionDefinition.cs:71-80 | the least index of a parameter with that name, or -1 exactly when there is none |
| FunctionDefinitions.FunctionDefinition.GetParameterType | EV3BasicCompiler/FunctionDefinition.cs:92-96 | Text exactly for a text default, Number exactly for a numeric one |
| FunctionDefinitions.FunctionDefinition.GetParameterVariable | EV3BasicCompiler/FunctionDefinition.cs:98-109 | 'S' or 'F' by the parameter's type, then the function name, '.' and the parameter name |
| FunctionDefinitions.FunctionDefinition.GetParameterDefaultLiteral | EV3BasicCompiler/FunctionDefinition.cs:87-90 | a text default in single quotes; a numeric default as a literal with a point that reads back as the default's value |
| FunctionDefinitions.FunctionDefinition.SetReturnType | EV3BasicCompiler/FunctionDefinition.cs:130-133 | records the return type |
| FunctionDefinitions.FunctionDefinition.GetReturnVariable | EV3BasicCompiler/FunctionDefinition.cs:117-128 | "F" or "S" by the return type, then the function name and '.'; empty for no value |
| FunctionDefinitions.FunctionDefinition.GetMaxReserved | EV3BasicCompiler/FunctionDefinition.cs:161-164 | the maximum is never below the current count, and 0 for a type never reserved |
| FunctionDefinitions.FunctionDefinition.ReserveVariable | EV3BasicCompiler/FunctionDefinition.cs:135-154 | raises the type's count by one and the maximum to at least it, and names the temporary by the old count; no name for other types |
| FunctionDefinitions.FunctionDefinition.ReleaseVariable | EV3BasicCompiler/FunctionDefinition.cs:156-159 | lowers the type's count by one, keeping the maximum; a type never reserved is an error |
| FunctionDefinitions.FunctionDefinition.GetAllLocalVariables | EV3BasicCompiler/FunctionDefinition.cs:167-188 | the return variable if the type matches, the parameters of the type and every temporary ever reserved |
| FunctionDefinitions.FunctionDefinition.GetCurrentLocalVariables | EV3BasicCompiler/FunctionDefinition.cs:190-211 | the parameters of the type and the temporaries reserved now |
| FunctionDefinitions.FunctionDefinition.CollectParameters | EV3BasicCompiler/FunctionDefinition.cs:175-181 | the loop collects exactly ParameterVariables |
| FunctionDefinitions.FunctionDefinition.CurrentAmongAll | EV3BasicCompiler/FunctionDefinition.cs:167-211 | every variable live now is among all the locals |
| FunctionDefinitions.ParsePart | EV3BasicCompiler/FunctionDefinition.cs:220-240 | one part yields the name and default ParamName and ParamDefault describe |
| FunctionDefinitions.ParseParts | EV3BasicCompiler/FunctionDefinition.cs:218-241 | every part of the declarator is parsed in order |
| FunctionDefinitions.Make | EV3BasicCompiler/FunctionDefinition.cs:213-244 | splits the declarator at blanks, tabs and commas, dropping empty parts, and parses each into a parameter name and default |
| FunctionCalls.OpLines | EV3BasicCompiler/Expression.cs:476-542 | each save or restore of a local is two LMS lines |
| FunctionCalls.Pushes | EV3BasicCompiler/Expression.cs:476-487 | one save per local, in list order |
| FunctionCalls.Pops | EV3BasicCompiler/Expression.cs:527-542 | one restore per local, the list walked backwards |
| FunctionCalls.WithStack | EV3BasicCompiler/Expression.cs:476-542 | replacing one stack leaves the variables and the other stack alone |
| FunctionCalls.Values | EV3BasicCompiler/Expression.cs:476-487 | one value per local, in list order |
| FunctionCalls.OpsLinesAppend | EV3BasicCompiler/Expression.cs:476-542 | the lines of consecutive steps are the lines of each part in order |
| FunctionCalls.PopOrder | EV3BasicCompiler/Expression.cs:527-542 | restore i undoes save n-1-i: the restores are the saves reversed |
| FunctionCalls.RunAppend | EV3BasicCompiler/Expression.cs:476-542 | running consecutive steps runs each part in turn, stopping at a failure |
| FunctionCalls.PushesRun | EV3BasicCompiler/Expression.cs:476-487 | saving pushes the locals' values onto the stack in list order and changes no variable |
| FunctionCalls.PopStep | EV3BasicCompiler/Expression.cs:531-532 | one restore moves the top of the stack into the variable |
| FunctionCalls.PopsRun | EV3BasicCompiler/Expression.cs:527-542 | restoring from a stack holding the saved values on top gives each local its saved value and leaves the stack as it was below them |
| FunctionCalls.SaveRun | EV3BasicCompiler/Expression.cs:474-488 | saving the number and text locals puts their values on the two stacks |
| FunctionCalls.SaveRestore | EV3BasicCompiler/Expression.cs:474-543 | whatever the callee did to the variables, if it left both stacks as it found them, the restores bring back every saved local and both stack sizes, and keep the callee's other effects |
| FunctionCalls.SaveLocals | EV3BasicCompiler/Expression.cs:476-487 | emits the saves of the locals and registers the store function; the error is an undefined library function, impossible when the library is closed |
| FunctionCalls.RestoreLocals | EV3BasicCompiler/Expression.cs:527-542 | emits the restores of the locals and registers the get function; the error is an undefined library function, impossible when the library is closed |
| FunctionCalls.ArgumentMoves | EV3BasicCompiler/Expression.cs:498-509 | one set-up line per callee parameter, in order: the computed argument if given, else the default literal |
| FunctionCalls.MoveArguments | EV3BasicCompiler/Expression.cs:498-509 | the loop gives ArgumentMoves; it fails exactly when the definition has fewer defaults than names |
| FunctionCalls.CallLines | EV3BasicCompiler/Expression.cs:517-522 | pushes the return address ENDSUB_sub:label, jumps to SUB_sub and places the return label |
| FunctionCalls.ResultLines | EV3BasicCompiler/Expression.cs:546-557 | the result is read out exactly when an output variable is wanted and the function returns a Number or a Text |
| FunctionCalls.CurrentLocalsAt | EV3BasicCompiler/Expression.cs:476-542 | the current locals are the locals at the current temporary count |
| FunctionCalls.SaveAll | EV3BasicCompiler/Expression.cs:474-488 | emits the saves of the current number locals, then the text locals |
| FunctionCalls.RestoreAll | EV3BasicCompiler/Expression.cs:525-543 | emits the restores of the current number locals, then the text locals, each list backwards |
| Expressions.PreparedValue | EV3BasicCompiler/Expression.cs:49-52 | only a number literal or an atomic value has a prepared value; every call must be computed |
| Expressions.Parameters | EV3BasicCompiler/Expression.cs:168-199 | the parameters of a call are smaller than the call, so generation recursing into them terminates |
| Expressions.IndexFrom | EV3BasicCompiler/Expression.cs:277 | the search for the next ':' answers -1 or a position at or after the cursor |
| Expressions.IndexFromFacts | EV3BasicCompiler/Expression.cs:277 | the position found holds ':' and no ':' lies between the cursor and it; -1 means no ':' from the cursor on |
| Expressions.Spliced | EV3BasicCompiler/Expression.cs:286-297 | replacing the two characters of a placeholder by a text changes the length by the text's length minus two |
| Expressions.ScanStep | EV3BasicCompiler/Expression.cs:274-305 | one round of the scan either stops with the format unchanged, or leaves a strictly shorter remainder after the cursor and records only present arguments as used |
| Expressions.InjectedUses | EV3BasicCompiler/Expression.cs:270-314 | a successful scan records only indices of present arguments |
| Expressions.Nulled | EV3BasicCompiler/Expression.cs:308-311 | nulling the used arguments keeps the number of arguments |
| Expressions.NulledAt | EV3BasicCompiler/Expression.cs:308-311 | after nulling, an argument is absent exactly when its index was used, otherwise unchanged |
| Expressions.ScanCases | EV3BasicCompiler/Expression.cs:277-304 | the four branches of a round: no ':' stops; ":#" splices the counter and moves the cursor by its length from the old cursor; ":d" splices argument d and moves the cursor by its length from the old cursor; any other ':' moves the cursor past it |
| Expressions.InjectedRound | EV3BasicCompiler/Expression.cs:274-305 | the whole scan follows the branch taken by its first round, and an absent argument d is the error of the round that needs it |
| Expressions.InjectedDone | EV3BasicCompiler/Expression.cs:274 | a cursor at the end of the format leaves it as it is |
| Expressions.InjectedCounter | EV3BasicCompiler/Expression.cs:284-290 | ":#" is replaced by the decimal expansion counter and the scan goes on from the old cursor plus the counter's length |
| Expressions.InjectedFails | EV3BasicCompiler/Expression.cs:291-297 | ":d" with argument d missing or already used is an error |
| Expressions.InjectedSkip | EV3BasicCompiler/Expression.cs:304 | a ':' followed by neither '#' nor a digit, or at the very end, is left in place and the scan resumes after it |
| Expressions.InjectedArgument | EV3BasicCompiler/Expression.cs:291-301 | ":d" is replaced by argument d, d is recorded as used, and the scan goes on from the old cursor plus the argument's length |
| Expressions.NullUsed | EV3BasicCompiler/Expression.cs:308-311 | the loop over the used indices nulls exactly those arguments |
| Expressions.ScanPlaceholders | EV3BasicCompiler/Expression.cs:272-305 | the while loop computes the scan's result, cursor quirk included |
| Expressions.InjectPlaceholders | EV3BasicCompiler/Expression.cs:270-314 | the method fails exactly when the scan fails, with the same message; on success it returns the filled-in template and the arguments with the used ones nulled |
| Expressions.NoPlaceholder | EV3BasicCompiler/Expression.cs:277-280 | a format without ':' from the cursor on comes back unchanged with no argument used |
| Expressions.CounterHasNoColon | EV3BasicCompiler/Expression.cs:286 | the decimal text of the counter holds no ':', so the counter is never rescanned as a placeholder |
| Expressions.OneArgument | EV3BasicCompiler/Expression.cs:291-301 | a template with one ":d" and no other ':' becomes the text with argument d in its place and d used, or the error when argument d is missing |
| Expressions.OneCounter | EV3BasicCompiler/Expression.cs:284-290 | a template with one ":#" and no other ':' becomes the text with the counter in its place |
| Expressions.PlainColon | EV3BasicCompiler/Expression.cs:304 | a template whose only ':' is followed by neither '#' nor a digit comes back unchanged |
| Expressions.MissingArgument | EV3BasicCompiler/Expression.cs:291-297 | a ":d" with argument d missing is an error for any text around it |
| Expressions.SubstitutedPlain | EV3BasicCompiler/Expression.cs:277-280 | the left-to-right substitution passes a ':'-free prefix through |
| Expressions.InjectedIsSubstituted | EV3BasicCompiler/Expression.cs:274-305 | while no inserted text holds ':', the scan equals a single left-to-right substitution of every placeholder of the template |
| Expressions.InjectedTemplate | EV3BasicCompiler/Expression.cs:270-314 | when no argument holds ':', injecting placeholders is exactly the single left-to-right substitution |
| Expressions.RescanSecondRound | EV3BasicCompiler/Expression.cs:287-300 | because the cursor moves from the old cursor, a ":e" inside an inserted argument is itself replaced in the next round |
| Expressions.InsertedTextRescanned | EV3BasicCompiler/Expression.cs:287-300 | an argument ":e" inserted for ":d" is expanded once more into argument e, and both indices are used |
| Expressions.RescanExample | EV3BasicCompiler/Expression.cs:287-300 | the template "abc:0" with arguments ":1" and "Z" yields "abcZ" and uses both arguments |
| Expressions.ExecAppend | EV3BasicCompiler/Expression.cs:369-406 | running two pieces of jump code in a row: the first one's jump wins, otherwise the second runs |
| Expressions.GotoAppend | EV3BasicCompiler/Expression.cs:369-406 | a forward jump skips to its label's definition across concatenation |
| Expressions.GotoMissing | EV3BasicCompiler/Expression.cs:369-406 | a jump to a label not defined in the code leaves the code at that label |
| Expressions.EitherJump | EV3BasicCompiler/Expression.cs:372-374 | two conditions jumping to the same label jump when either holds |
| Expressions.SkipJump | EV3BasicCompiler/Expression.cs:376-381 | the first condition jumping to a fresh skip label and the second to the target jump to the target exactly when the first fails and the second holds |
| Expressions.NotDefined | EV3BasicCompiler/Expression.cs:376-381 | the code of a subcondition defines only skip labels from its own range, so a fresh skip label is not defined in it |
| Expressions.DefsJoin | EV3BasicCompiler/Expression.cs:369-406 | the label ranges of two subconditions combine |
| Expressions.GenerateJump | EV3BasicCompiler/Expression.cs:79-91 | the code generated for a condition jumps to the label exactly when the condition's value equals jumpIfTrue, and otherwise falls through; a text literal gives one JR or nothing as its upper-cased value is "TRUE" or not; a condition of the wrong type is the error; new labels are numbered from the label counter |
| Expressions.SkipCode | EV3BasicCompiler/Expression.cs:376-381 | the non-short-circuit polarity of And and Or, with its skip label, jumps exactly when the condition equals jumpIfTrue |
| Expressions.EitherCode | EV3BasicCompiler/Expression.cs:372-374 | the short-circuit polarity of And and Or jumps exactly when the condition equals jumpIfTrue |
| Expressions.GenerateAndJump | EV3BasicCompiler/Expression.cs:369-383 | And jumps exactly when the conjunction equals jumpIfTrue: two jumps to the target for false, a fresh skip label for true |
| Expressions.GenerateOrJump | EV3BasicCompiler/Expression.cs:392-406 | Or jumps exactly when the disjunction equals jumpIfTrue: two jumps to the target for true, a fresh skip label for false |
| Expressions.MoveLines | EV3BasicCompiler/Expression.cs:57-77 | a prepared value is moved into the output variable with at most one line, and with none for a Void expression |
| Expressions.AppendedSnoc | EV3BasicCompiler/Expression.cs:225-234 | the arguments left over are appended one after the other |
| Expressions.NothingAppended | EV3BasicCompiler/Expression.cs:225-234 | when every argument was consumed nothing is appended |
| Expressions.NulledSnoc | EV3BasicCompiler/Expression.cs:219-222 | the output variable, added after the scan indices, is never nulled by them |
| Expressions.OutputLast | EV3BasicCompiler/Expression.cs:219-234 | the output variable is appended as the last argument of the call line |
| Expressions.CalledNameIsWord | EV3BasicCompiler/Expression.cs:255-260 | the name read after "CALL " holds no blank |
| Expressions.NextCall | EV3BasicCompiler/Expression.cs:250-264 | the next "CALL " found from a position is the first occurrence at or after it |
| Expressions.MemorizeCallAt | EV3BasicCompiler/Expression.cs:255-262 | the library function named after "CALL " is recorded as referenced, or the error names a function missing from the library |
| Expressions.CoveredGrow | EV3BasicCompiler/Expression.cs:248-267 | the calls covered so far stay covered as references are added |
| Expressions.CoveredSkip | EV3BasicCompiler/Expression.cs:250-264 | positions without "CALL " need nothing |
| Expressions.CoveredNext | EV3BasicCompiler/Expression.cs:250-264 | a call memorized at the current position extends the covered prefix by one |
| Expressions.MemorizeCalls | EV3BasicCompiler/Expression.cs:248-267 | every "CALL name" in the template is recorded as referenced, or the error names an undefined function; with a closed library of the called names it succeeds |
| Expressions.ReleaseTemporaries | EV3BasicCompiler/Expression.cs:242-245 | one temporary of each listed type is released |
| Expressions.AppendArguments | EV3BasicCompiler/Expression.cs:225-234 | the line is the text followed by every argument not nulled, each after a blank |
| Expressions.WriteCall | EV3BasicCompiler/Expression.cs:225-234 | the call line is the filled-in template followed by the arguments no placeholder consumed, or the placeholder error |
| Expressions.PendingReserve | EV3BasicCompiler/Expression.cs:206-217 | a reservation adds one pending release of its type |
| Expressions.GenerateValue | EV3BasicCompiler/Expression.cs:57-77 | a prepared value is moved without touching the counters; any other expression leaves the temporary counts as they were |
| Expressions.GenerateCall | EV3BasicCompiler/Expression.cs:201-268 | the call gets one argument per parameter, the prepared ones as themselves, then the output variable last; the line is the filled-in template plus the arguments left over; every library call of the template is referenced; the temporary counts end where they started |
| Expressions.PendingJoin | EV3BasicCompiler/Expression.cs:206-217 | pending releases of consecutive steps add up |
| Expressions.PrepareArgument | EV3BasicCompiler/Expression.cs:208-216 | a prepared parameter is used as it is with no code; any other reserves one temporary of its type and computes into it |
| Expressions.PrepareArguments | EV3BasicCompiler/Expression.cs:206-217 | one argument per parameter, one reservation per unprepared parameter |
| Expressions.PreparedNext | EV3BasicCompiler/Expression.cs:206-217 | the argument loop's invariant carries from one parameter to the next |
| Expressions.PreparedAll | EV3BasicCompiler/Expression.cs:206-217 | at the end of the loop the arguments match the parameters and the releases are the types of the unprepared ones |
| Expressions.ComputeArgument | EV3BasicCompiler/Expression.cs:491-495 | a parameter of a user function call is computed into a temporary of its type |
| Expressions.ComputeArguments | EV3BasicCompiler/Expression.cs:490-495 | one temporary per parameter, reserved in parameter order |
| Expressions.TypesNext | EV3BasicCompiler/Expression.cs:490-495 | the reservation types follow the parameters one at a time |
| Expressions.ReleaseReversed | EV3BasicCompiler/Expression.cs:511-514 | releasing in reverse order frees one temporary per reserved type |
| Expressions.GenerateFunctionCall | EV3BasicCompiler/Expression.cs:469-559 | when the callee could call the current function the current locals are saved before and restored after the call, and the locals restored are those saved; the result is moved to the output variable; the temporary counts end where they started |
| Expressions.SavedCall | EV3BasicCompiler/Expression.cs:474-543 | the saving branch wraps the call in the saves and the reverse-order restores of the same locals |
| Expressions.CallBody | EV3BasicCompiler/Expression.cs:489-521 | arguments computed into temporaries, the callee's parameters set from them or from the defaults, temporaries released, and the call through a fresh return label |
| BasicCompiler.Clamp | EV3BasicCompiler/Compiler.cs:1664-1667 | a character code outside 1..255 becomes 1; codes in range are kept |
| BasicCompiler.EscapedPrintable | EV3BasicCompiler/Compiler.cs:1659-1681 | an escaped text consists of printable ASCII only and holds no quote, so the literal stays one assembler token |
| BasicCompiler.Clamped | EV3BasicCompiler/Compiler.cs:1664-1667 | clamping keeps the length of the text |
| BasicCompiler.EscapedSnoc | EV3BasicCompiler/Compiler.cs:1662-1679 | escaping is character by character: one more character appends its own replacement |
| BasicCompiler.EscapeString | EV3BasicCompiler/Compiler.cs:1659-1681 | the in-place rewrite, whose index skips each inserted escape, yields the character-by-character escaping of the input |
| BasicCompiler.UnescapeOne | EV3BasicCompiler/Compiler.cs:1669-1677 | the assembler reads a backslash and three octal digits back as the clamped character |
| BasicCompiler.UnescapeEscaped | EV3BasicCompiler/Compiler.cs:1659-1681 | unescaping an escaped text gives back the text with out-of-range characters clamped to code 1 |
| BasicCompiler.UnescapedLiteral | EV3BasicCompiler/Compiler.cs:1659-1681 | a quoted escaped literal unescapes to the quoted clamped text |
| BasicCompiler.LiteralQuoteEnd | EV3BasicCompiler/Compiler.cs:1659-1681 | the closing quote of the emitted literal is the first quote after the opening one |
| BasicCompiler.QuotedLiteralToken | EV3BasicCompiler/Compiler.cs:1659-1681 | the assembler's tokenizer reads the emitted literal as one token, the quoted clamped text |
| BasicCompiler.ToByteArray | EV3BasicCompiler/Compiler.cs:475-481 | succeeds exactly on texts of even length whose every pair Convert.ToByte accepts (two hexadecimal digits, or '+' and one digit), with one byte per pair, the pair's value |
| BasicCompiler.SignedPairs | EV3BasicCompiler/Compiler.cs:479 | "+F0A" is accepted as the bytes 15 and 10; "-F" is refused |
| BasicCompiler.HexText | EV3BasicCompiler/Compiler.cs:475-481 | the reference encoding ToByteArray inverts: two digits per byte |
| BasicCompiler.HexTextAt | EV3BasicCompiler/Compiler.cs:475-481 | the k-th pair of the text is the two digits of the k-th byte |
| BasicCompiler.HexPair | EV3BasicCompiler/Compiler.cs:475-481 | the digits of the k-th pair are the high and the low nibble of the k-th byte |
| BasicCompiler.HexTextPairs | EV3BasicCompiler/Compiler.cs:475-481 | ToByteArray accepts the hexadecimal text of any bytes and reads every pair back as the byte it came from |
| BasicCompiler.StripComment | EV3BasicCompiler/Compiler.cs:114-118 | cutting off the comment leaves a prefix of the line |
| BasicCompiler.Unbraced | EV3BasicCompiler/Compiler.cs:131-133 | every curly bracket becomes a blank and the length is kept |
| BasicCompiler.FindFrom | EV3BasicCompiler/Compiler.cs:139 | the search for "//" from a position answers -1 or a position at or after it |
| BasicCompiler.GlobalStep | EV3BasicCompiler/Compiler.cs:104-123 | outside an entry, a line that opens none adds its comment-free text to the globals |
| BasicCompiler.OpenStep | EV3BasicCompiler/Compiler.cs:106-111 | a line beginning with "subcall", "inline" or "init" opens an entry whose body starts with that line |
| BasicCompiler.BodyStep | EV3BasicCompiler/Compiler.cs:125-128 | inside an entry, a line not beginning with '}' is added to the body |
| BasicCompiler.CloseStep | EV3BasicCompiler/Compiler.cs:127-148 | a line beginning with '}' closes the entry: its effect is applied and reading goes on outside entries |
| BasicCompiler.GlobalLines | EV3BasicCompiler/Compiler.cs:104-123 | lines that open no entry only add their comment-free, non-blank text, each with a line break, to the globals |
| BasicCompiler.BodyTextSnoc | EV3BasicCompiler/Compiler.cs:127 | each body line is followed by its line break |
| BasicCompiler.CollectBody | EV3BasicCompiler/Compiler.cs:125-128 | body lines are collected in order until a line beginning with '}' |
| BasicCompiler.EntryLines | EV3BasicCompiler/Compiler.cs:102-150 | an entry (opening line, body lines, closing line) has the effect of closing it on its whole text |
| BasicCompiler.UnclosedEntry | EV3BasicCompiler/Compiler.cs:102-152 | an entry still open at the end of the module is dropped |
| BasicCompiler.SubcallEntry | EV3BasicCompiler/Compiler.cs:136-145 | a subcall entry is stored under the trimmed upper-cased name between the keyword and "//", decoded from the blank-separated descriptor and references |
| BasicCompiler.CalleesFromStep | EV3BasicCompiler/Compiler.cs:2030-2051 | visiting one more sub adds the defined functions it calls when it belongs to fd |
| BasicCompiler.ReachStaysInside | EV3BasicCompiler/Compiler.cs:2053-2071 | whatever a function reaches lies in any set closed under direct callees that holds its direct callees |
| BasicCompiler.CouldCallStep | EV3BasicCompiler/Compiler.cs:2053-2071 | reachability extends by one direct call |
| BasicCompiler.WorklistStart | EV3BasicCompiler/Compiler.cs:2055 | the initial worklist holds only functions f1 could call |
| BasicCompiler.WorklistStep | EV3BasicCompiler/Compiler.cs:2056-2069 | adding the new direct callees of item i keeps the worklist invariant |
| BasicCompiler.WorklistDone | EV3BasicCompiler/Compiler.cs:2070 | a worklist exhausted without meeting f2 holds everything f1 could call, so f1 cannot call f2 |
| BasicCompiler.AppendMissing | EV3BasicCompiler/Compiler.cs:2062-2068 | the list is extended by the new items only, in order, without duplicates |
| BasicCompiler.NoDuplicatesBound | EV3BasicCompiler/Compiler.cs:2056-2069 | a duplicate-free worklist drawn from the defined functions is no longer than their number, which bounds the loop |
| BasicCompiler.ReachableSubsMapped | EV3BasicCompiler/Compiler.cs:2007-2027 | in a closed assignment, every sub reachable from a mapped sub belongs to the same function |
| BasicCompiler.AssignmentStaysClosed | EV3BasicCompiler/Compiler.cs:2007-2027 | the subs a successful assignment adds keep a closed assignment closed |
| BasicCompiler.ExtendsTransitive | EV3BasicCompiler/Compiler.cs:2018-2024 | two assignments in a row extend the first map |
| BasicCompiler.AssignedKept | EV3BasicCompiler/Compiler.cs:2020-2023 | callees already assigned stay assigned as the loop goes on |
| BasicCompiler.CalleeStep | EV3BasicCompiler/Compiler.cs:2020-2023 | one more callee assigned keeps the callee loop's invariant |
| BasicCompiler.ClosureStep | EV3BasicCompiler/Compiler.cs:2018-2024 | the subs added by two successive steps stay closed |
| BasicCompiler.SubClosed | EV3BasicCompiler/Compiler.cs:2018-2024 | once the callees of a sub are assigned it is closed |
| BasicCompiler.ClashPropagates | EV3BasicCompiler/Compiler.cs:2009-2023 | a clash found below a callee is a clash reachable from the sub |
| BasicCompiler.ClashBack | EV3BasicCompiler/Compiler.cs:2009-2018 | a clash found after the sub is assigned was there before |
| BasicCompiler.MeasureDrops | EV3BasicCompiler/Compiler.cs:2018-2024 | assigning a sub before recursing shrinks the number of unassigned subs, so the recursion terminates |
| BasicCompiler.ReferencesStayClosed | EV3BasicCompiler/Compiler.cs:503-515 | the entries memorize_reference adds keep the referenced set closed under references |
| BasicCompiler.AssignType | EV3BasicCompiler/Compiler.cs:841-848 | an assignment succeeds exactly when the variable is new or already has the type; the variable then has the type and every other variable keeps its own |
| BasicCompiler.ArrayTypeOf | EV3BasicCompiler/Compiler.cs:862-866 | only numbers and texts are stored into arrays, numbers into number arrays |
| BasicCompiler.TypeNeverChanges | EV3BasicCompiler/Compiler.cs:841-848 | once a variable has a type, no run of assignments changes it |
| BasicCompiler.Compiler.constructor | EV3BasicCompiler/Compiler.cs:62-73 | the state before the runtime library is read: empty library, globals, init code, references and variables, and label 0 |
| BasicCompiler.Compiler.GetLabelNumber | EV3BasicCompiler/Compiler.cs:496-499 | hands out the current label number and increments the counter |
| BasicCompiler.Compiler.ReadLibraryModule | EV3BasicCompiler/Compiler.cs:94-153 | the line loop leaves the globals, the init code and the library as the line-by-line reading defines them, or fails with its error |
| BasicCompiler.Compiler.ReadLibraryLine | EV3BasicCompiler/Compiler.cs:104-149 | one line advances the reading state as the line-by-line reading does |
| BasicCompiler.Compiler.AddGlobalLine | EV3BasicCompiler/Compiler.cs:114-122 | the comment-free text of a non-blank line is added to the globals with a line break |
| BasicCompiler.Compiler.CloseLibraryEntry | EV3BasicCompiler/Compiler.cs:129-146 | closing an entry adds init code or stores the decoded entry, as closing defines |
| BasicCompiler.Compiler.MemorizeReference | EV3BasicCompiler/Compiler.cs:501-515 | the entry and, depth first, everything it refers to become referenced; a missing name is the error naming it; with a library closed under references it succeeds |
| BasicCompiler.Compiler.SetAllFunctionOfSub | EV3BasicCompiler/Compiler.cs:2007-2027 | on success the sub and every sub it calls, directly or not, belong to fd; existing assignments are kept; a clash is reported with a sub reachable from sub that belongs to another function |
| BasicCompiler.Compiler.SetAllCallees | EV3BasicCompiler/Compiler.cs:2018-2024 | the loop over the callees assigns every one of them to fd, or reports the clash below one |
| BasicCompiler.Compiler.DetermineDirectCallees | EV3BasicCompiler/Compiler.cs:2030-2051 | the list holds, once each, exactly the defined functions called from subs that belong to fd |
| BasicCompiler.Compiler.AppendDefined | EV3BasicCompiler/Compiler.cs:2036-2047 | the list is extended by the defined functions called, without duplicates |
| BasicCompiler.Compiler.FunctionCouldCall | EV3BasicCompiler/Compiler.cs:2053-2071 | the answer is true exactly when f1 reaches f2 through one or more calls |
| BasicCompiler.Compiler.VariableAssignment | EV3BasicCompiler/Compiler.cs:834-848 | the variable takes the expression's type, or the assignment fails when it already holds another type and the variables stay as they were |
| BasicCompiler.Compiler.ArrayAssignment | EV3BasicCompiler/Compiler.cs:853-876 | only numbers and texts are stored; the variable becomes, or must already be, the matching array type |
| BasicCompiler.Compiler.ForCounter | EV3BasicCompiler/Compiler.cs:699-708 | the loop counter is, or becomes, a number; otherwise the error and no change |
| EV3Connections.NextCounter | EV3Communication/EV3Connection.cs:68-73 | the 16-bit message counter goes up by one and wraps from 65535 to 0 |
| EV3Connections.ReplyCounter | EV3Communication/EV3Connection.cs:95 | the counter read from a reply's first two bytes is a 16-bit value |
| EV3Connections.CounterRoundTrip | EV3Communication/EV3Connection.cs:76-77 | the counter written low byte first at the head of a packet reads back as itself |
| EV3Connections.SystemPacket | EV3Communication/EV3Connection.cs:72-83 | a system request is the counter, SYSTEM_COMMAND_REPLY, the command and the arguments, four bytes longer than the arguments, and carries its counter |
| EV3Connections.DirectPacket | EV3Communication/EV3Connection.cs:122-130 | a direct request is the counter, DIRECT_COMMAND_REPLY, the two size bytes and the byte codes |
| EV3Connections.DirectHeaderDecodes | EV3Communication/EV3Connection.cs:125-129 | the header reads back as the counter, the 10-bit global size and the 6-bit local size |
| EV3Connections.Check | EV3Communication/EV3Connection.cs:86-167 | a packet with another counter is skipped; a system reply is accepted exactly when it has the counter, a reply type and at least five bytes, yielding its bytes from 4; a direct error reply is the null reply; a direct reply is accepted exactly when it has the counter, the reply type and global size plus 3 bytes, yielding its bytes from 3; everything else is the matching error |
| EV3Connections.Await | EV3Communication/EV3Connection.cs:86-115 | the receive loop consumes at least one packet and at most all of them; a system command never yields the null reply |
| EV3Connections.AwaitSkips | EV3Communication/EV3Connection.cs:97-100 | replies carrying other counters in front of the awaited one change nothing but the number of packets consumed |
| EV3Connections.SystemReplyAccepted | EV3Communication/EV3Connection.cs:86-115 | the brick's reply to a system command, after any stale replies, is handed back from its status byte on |
| EV3Connections.CheckStatus | EV3Communication/EV3Connection.cs:185-196 | a reply passes exactly when it is long enough and its status is SUCCESS or END_OF_FILE |
| EV3Connections.ContinueChunksCover | EV3Communication/EV3Connection.cs:203-224 | the CONTINUE_DOWNLOAD chunks put together are the rest of the content, each of 1 to 900 bytes |
| EV3Connections.DownloadChunksCover | EV3Communication/EV3Connection.cs:172-224 | the chunks of a download put together are exactly the content; the first fills what the name leaves of 900 bytes, the later ones hold 1 to 900 bytes |
| EV3Connections.UploadSizesCover | EV3Communication/EV3Connection.cs:263-296 | the sizes ReadEV3File asks for add up to the length, each of 1 to 900 bytes |
| EV3Connections.UploadedLength | EV3Communication/EV3Connection.cs:284-288 | the bytes taken from the replies are as many as were asked for |
| EV3Connections.ReportedLength | EV3Communication/EV3Connection.cs:253 | the length composed from bytes 1 to 4 is a 32-bit int: the little-endian value when the top bit is clear, negative otherwise |
| EV3Connections.Exchange | EV3Communication/EV3Connection.cs:70-116 | SystemCommand on a link value: the counter stays a 16-bit value; what it sends, consumes and records is stated by the step lemmas and tied to the class by Connection.SystemCommand |
| EV3Connections.BeginDownloadOn | EV3Communication/EV3Connection.cs:174-197 | the BEGIN_DOWNLOAD step on a link keeps the counter 16-bit; what it sends and when it succeeds is BeginDownloadReply |
| EV3Connections.ContinueDownloadOn | EV3Communication/EV3Connection.cs:206-223 | one CONTINUE_DOWNLOAD step on a link keeps the counter 16-bit; what it sends and when it succeeds is ContinueDownloadReply |
| EV3Connections.DownloadFrom | EV3Communication/EV3Connection.cs:204-226 | the download loop from pos on keeps the counter 16-bit; its requests, replies and success are DownloadFromSends, DownloadFromStatuses and DownloadFromSucceeds |
| EV3Connections.CreateOn | EV3Communication/EV3Connection.cs:172-227 | CreateEV3File on a link: a name longer than 900 characters always fails; the counter stays 16-bit |
| EV3Connections.BeginUploadOn | EV3Communication/EV3Connection.cs:231-255 | the BEGIN_UPLOAD step on a link keeps the counter 16-bit; what it sends and when it succeeds is BeginUploadReply |
| EV3Connections.ContinueUploadOn | EV3Communication/EV3Connection.cs:265-283 | one CONTINUE_UPLOAD step on a link gives exactly the n bytes asked for when it succeeds |
| EV3Connections.UploadFrom | EV3Communication/EV3Connection.cs:263-297 | the upload loop from pos on keeps the counter 16-bit; its requests, replies and result are UploadFromRequests, UploadFromFits, UploadFromReplies and UploadFromStatuses |
| EV3Connections.ReadOn | EV3Communication/EV3Connection.cs:229-300 | ReadEV3File on a link keeps the counter 16-bit; its transcript is ReadUploaded, its success ReadDelivers |
| EV3Connections.BeginDownloadReply | EV3Communication/EV3Connection.cs:174-197 | BEGIN_DOWNLOAD sends one request with the next counter, carrying the length, the name and the first chunk; it consumes the packets up to the awaited reply and records that reply exactly when it arrives; it succeeds exactly when the reply arrives with at least two bytes and status SUCCESS or END_OF_FILE, and the handle is the reply's byte 1 |
| EV3Connections.ContinueDownloadReply | EV3Communication/EV3Connection.cs:206-223 | CONTINUE_DOWNLOAD sends one request with the next counter, carrying the handle and the chunk; it consumes the packets up to the awaited reply, records that reply exactly when it arrives, and succeeds exactly when the reply arrives with at least two bytes and status SUCCESS or END_OF_FILE |
| EV3Connections.BeginUploadReply | EV3Communication/EV3Connection.cs:231-255 | BEGIN_UPLOAD sends one request with the next counter, carrying no content and the name; it consumes the packets up to the awaited reply, records that reply exactly when it arrives, and succeeds exactly when the reply arrives with at least six bytes and status SUCCESS or END_OF_FILE; the length is read from bytes 1 to 4 and the handle from byte 5 |
| EV3Connections.ContinueUploadReply | EV3Communication/EV3Connection.cs:265-283 | CONTINUE_UPLOAD sends one request with the next counter, carrying the handle and the size; it consumes the packets up to the awaited reply, records that reply exactly when it arrives, and succeeds exactly when the reply holds the bytes asked for and has status SUCCESS or END_OF_FILE, giving those bytes from index 2 |
| EV3Connections.DownloadFromGrows | EV3Communication/EV3Connection.cs:204-226 | the download loop only appends to the packets sent and to the replies |
| EV3Connections.DownloadFromSends | EV3Communication/EV3Connection.cs:204-226 | on success the download loop has sent one CONTINUE_DOWNLOAD per remaining chunk, in order, all for the same handle |
| EV3Connections.DownloadFromStatuses | EV3Communication/EV3Connection.cs:204-226 | on success every reply the download loop accepted had status SUCCESS or END_OF_FILE |
| EV3Connections.CreateDownloaded | EV3Communication/EV3Connection.cs:172-227 | on success CreateEV3File has sent a complete download of the content under the name, every CONTINUE_DOWNLOAD for the handle in the BEGIN_DOWNLOAD reply, and every reply passed the status check |
| EV3Connections.UploadFromGrows | EV3Communication/EV3Connection.cs:263-297 | the upload loop only appends to the packets sent and to the replies |
| EV3Connections.UploadFromRequests | EV3Communication/EV3Connection.cs:263-297 | on success the upload loop has sent one CONTINUE_UPLOAD per size min(length - pos, 900), in order, for the same handle |
| EV3Connections.UploadFromStatuses | EV3Communication/EV3Connection.cs:263-297 | on success every reply the upload loop accepted had status SUCCESS or END_OF_FILE |
| EV3Connections.UploadFromFits | EV3Communication/EV3Connection.cs:263-297 | on success every reply the upload loop accepted holds the bytes asked of it |
| EV3Connections.UploadFromReplies | EV3Communication/EV3Connection.cs:263-297 | on success the upload loop returns the bytes got before it followed by those of its replies, in order |
| EV3Connections.ReadUploaded | EV3Communication/EV3Connection.cs:229-300 | on success ReadEV3File has sent BEGIN_UPLOAD for the name and CONTINUE_UPLOAD requests for the handle of its reply, in the sizes the reported length calls for; every reply passed the status check; the file is the reported number of bytes, taken in order from the CONTINUE_UPLOAD replies |
| EV3Connections.ExchangeAccepted | EV3Communication/EV3Connection.cs:86-115 | a system command whose awaited reply is the next packet answers with that reply's status and data and consumes only that packet |
| EV3Connections.BeginDownloadAccepted | EV3Communication/EV3Connection.cs:184-199 | a brick that accepts BEGIN_DOWNLOAD hands out the handle it puts in its reply |
| EV3Connections.ContinueDownloadAccepted | EV3Communication/EV3Connection.cs:210-225 | a brick that accepts a CONTINUE_DOWNLOAD lets the step succeed |
| EV3Connections.BeginUploadAccepted | EV3Communication/EV3Connection.cs:239-255 | a brick that accepts BEGIN_UPLOAD with a length below 2^31 reports exactly that length and its handle |
| EV3Connections.ContinueUploadAccepted | EV3Communication/EV3Connection.cs:270-288 | a brick that answers a CONTINUE_UPLOAD with a chunk delivers exactly that chunk |
| EV3Connections.DownloadFromSucceeds | EV3Communication/EV3Connection.cs:204-226 | a brick that accepts every chunk lets the download loop succeed, consuming exactly its replies |
| EV3Connections.CreateBegins | EV3Communication/EV3Connection.cs:174-199 | after an accepted BEGIN_DOWNLOAD, CreateEV3File goes on as the download loop from the first chunk's end with the brick's handle |
| EV3Connections.CreateSucceeds | EV3Communication/EV3Connection.cs:172-227 | a brick that accepts BEGIN_DOWNLOAD and every chunk makes CreateEV3File succeed, consuming exactly its replies |
| EV3Connections.UploadFromDelivers | EV3Communication/EV3Connection.cs:263-297 | a brick that delivers the content chunk by chunk makes the upload loop return exactly the content, consuming exactly its replies |
| EV3Connections.ReadDelivers | EV3Communication/EV3Connection.cs:229-300 | a brick that reports the file's length and handle and then delivers it chunk by chunk makes ReadEV3File return exactly the file, consuming exactly its replies |
| EV3Connections.Connection.constructor | EV3Communication/EV3Connection.cs:62-68 | a connection starts with counter 0, nothing sent and the given packets to receive |
| EV3Connections.Connection.SendPacket | EV3Communication/EV3Connection.cs:62 | the packet is added to those sent |
| EV3Connections.Connection.ReceivePacket | EV3Communication/EV3Connection.cs:63 | the next incoming packet is taken, or the transport's error when there is none |
| EV3Connections.Connection.AwaitReply | EV3Communication/EV3Connection.cs:86-115 | the loop answers what the receive loop defines and consumes the packets it consumes |
| EV3Connections.Connection.SystemCommand | EV3Communication/EV3Connection.cs:70-116 | the counter advances, the system request with it is sent, and the answer is that of the receive loop for it; the new state and answer are Exchange of the old state |
| EV3Connections.Connection.DirectCommand | EV3Communication/EV3Connection.cs:118-169 | the counter advances, the direct request with it is sent, and the answer (data, null or error) is that of the receive loop for it |
| EV3Connections.Connection.BeginDownload | EV3Communication/EV3Connection.cs:174-199 | the new state and the answer are BeginDownloadOn of the old state: one BEGIN_DOWNLOAD request with the length, the name and the first chunk is sent; the step succeeds exactly when a reply arrives and passes the status check, and the handle is the reply's byte 1 |
| EV3Connections.Connection.ContinueDownload | EV3Communication/EV3Connection.cs:206-225 | the new state and the answer are ContinueDownloadOn of the old state: one CONTINUE_DOWNLOAD request with the handle and the chunk is sent; the step succeeds exactly when a reply arrives and passes the status check |
| EV3Connections.Connection.CreateEV3File | EV3Communication/EV3Connection.cs:172-227 | the new state and the answer are CreateOn of the old state; on success the requests sent are a complete download of the content under the name for the handle of the BEGIN_DOWNLOAD reply and every reply passed the status check; a name longer than 900 characters fails |
| EV3Connections.Connection.DownloadInto | EV3Communication/EV3Connection.cs:204-226 | the loop's new state and answer are DownloadFrom of the old state |
| EV3Connections.Connection.BeginUpload | EV3Communication/EV3Connection.cs:231-255 | the new state and the answer are BeginUploadOn of the old state: one BEGIN_UPLOAD request for the name is sent; the step succeeds exactly when a reply arrives with six bytes and passes the status check; the result is the length from bytes 1..4 and the handle from byte 5 |
| EV3Connections.Connection.ContinueUpload | EV3Communication/EV3Connection.cs:265-289 | the new state is that of ContinueUploadOn: one CONTINUE_UPLOAD request for n bytes is sent; the step succeeds exactly when the reply holds the n bytes and passes the status check, and those bytes are then copied into the buffer at pos, leaving the rest of it alone |
| EV3Connections.Connection.UploadInto | EV3Communication/EV3Connection.cs:263-297 | the new state is that of UploadFrom of the old state, success and error agree with it, and on success the buffer is its result: the replies' bytes in order, asked for in chunks of at most 900, every reply having passed the status check |
| EV3Connections.Connection.ReadEV3File | EV3Communication/EV3Connection.cs:229-300 | the new state and the answer are ReadOn of the old state; on success the transcript is that of ReadUploaded: the file is the reported number of bytes, taken in order from the CONTINUE_UPLOAD replies, every reply having passed the status check |
| EV3Connections.CopyChunk | EV3Communication/EV3Connection.cs:285-288 | the copy loop puts the reply's bytes after its two header bytes into the buffer at pos and leaves the rest alone |
| EV3Connections.LengthReported | EV3Communication/EV3Connection.cs:254 | a BEGIN_UPLOAD reply whose bytes 1 to 4 hold a length below 2^31, low byte first, reports exactly that length, with the handle in byte 5 |
| EV3Files.FullName | SmallBasicEV3Extension/EV3File.cs:41-45 | a name starting with '/' is kept; any other is put under the projects folder |
| EV3Files.Truncated | SmallBasicEV3Extension/EV3File.cs:169-173 | a line is cut to its first 251 characters; a shorter one is kept whole |
| EV3Files.FileTable.constructor | SmallBasicEV3Extension/EV3File.cs:36 | a table of 100 free slots |
| EV3Files.FileTable.FindHandle | SmallBasicEV3Extension/EV3File.cs:400-410 | the least slot holding a file of that name, or -1 when no slot does |
| EV3Files.FileTable.FindUnusedHandleSlot | SmallBasicEV3Extension/EV3File.cs:411-421 | the least free slot from 1 on, or -1 when all are taken |
| EV3Files.FileTable.OpenWrite | SmallBasicEV3Extension/EV3File.cs:39-84 | the handle is 0 exactly when the name is already open, the table is full or the reply carries no handle, and then nothing changes; otherwise the file takes the least free slot, whose number is returned |
| EV3Files.FileTable.OpenRead | SmallBasicEV3Extension/EV3File.cs:108-142 | the handle is 0 exactly when the name is already open, the table is full or the content could not be read, and then nothing changes; otherwise the content is stored in the least free slot with the cursor at 0 |
| EV3Files.FileTable.Close | SmallBasicEV3Extension/EV3File.cs:149-160 | an in-range handle frees its slot; any other handle changes nothing |
| EV3Files.FileTable.ReadLine | SmallBasicEV3Extension/EV3File.cs:235-257 | for a readable handle the line is the bytes from the cursor up to the next newline or the end, none of them a newline, and only that slot changes, its cursor moved past the newline; "" and no change for a bad handle or at the end |
| EV3Files.FileTable.ReadByte | SmallBasicEV3Extension/EV3File.cs:264-282 | the byte under the cursor, which moves on by one; 0 and no change for a bad handle or at the end |
| EV3Files.RenameFreeKeepsDistinct | SmallBasicEV3Extension/EV3File.cs:235-282 | moving a file's cursor keeps the table free of duplicate names |
| EV3Files.CloseKeepsDistinct | SmallBasicEV3Extension/EV3File.cs:149-160 | freeing a slot keeps the table free of duplicate names |
| EV3Files.OpenKeepsDistinct | SmallBasicEV3Extension/EV3File.cs:47-57 | opening a name no slot holds in a free slot other than 0 keeps the table free of duplicate names |
| EV3Files.TableLookupCommand | SmallBasicEV3Extension/EV3File.cs:380-396 | the brick is asked nothing exactly when the row length is below 1 or the row or column is negative |
| EV3Files.DigitRunOf | native/nativecode.c:27 | "%f" takes the whole run of digits of a numeral |
| EV3Files.ScanNatural | native/nativecode.c:27 | "%f" reads a blank and the decimal text of a non-negative number back as that number |
| EV3Files.ScanDigits | native/nativecode.c:27 | "%f" reads a blank and a run of digits followed by a blank or the end as the digits' value |
| EV3Files.WordOf | native/nativecode.c:27 | a word without blanks is read up to the blank after it |
| EV3Files.TableLookupAccepted | SmallBasicEV3Extension/EV3File.cs:380-396 | the native helper parses the command TableLookup sends (for a file name without blanks) back to the full name and the three numbers, and answers the lookup of exactly that request |
| EV3Files.ScanRequestSteps | native/nativecode.c:27 | the request is scanned as one word and three numbers in turn |
| EV3Files.FullNameUnblank | SmallBasicEV3Extension/EV3File.cs:390-393 | the full name of a name without blanks has no blanks |
| EV3Files.ScanRequestOf | native/nativecode.c:27 | the text of a path without blanks and three non-negative numbers scans back to that request |
| EV3Files.ScanWordOf | native/nativecode.c:27 | "%s" reads a path up to the blank after it |
| UserFunctions.SplitAll | SmallBasicEV3Extension/F.cs:79 | splitting at blanks and tabs gives at least one part, and no part holds a separator |
| UserFunctions.ParseDefinition | SmallBasicEV3Extension/F.cs:83-93 | "n:v" with a colon after the first character gives the upper-cased name n and the default v; any other part is an upper-cased name with default "0" |
| UserFunctions.ParseDefinitions | SmallBasicEV3Extension/F.cs:79-94 | the loop replaces every part by its name and collects every default, in order |
| UserFunctions.StackFrame | SmallBasicEV3Extension/F.cs:678-685 | missing names or defaults give an empty frame; otherwise the frame binds the first min(names, defaults) names, each to its argument when present and to its default otherwise |
| UserFunctions.FrameKeys | SmallBasicEV3Extension/F.cs:681-684 | the frame binds exactly the first n names |
| UserFunctions.FrameValue | SmallBasicEV3Extension/F.cs:681-684 | a name not repeated later holds its argument, or its default |
| UserFunctions.ThreadKey | SmallBasicEV3Extension/F.cs:645-646 | threads named "EV3-..." have their own stack; every other thread shares "EV3-MAIN" |
| UserFunctions.Leave | SmallBasicEV3Extension/F.cs:632-638 | removing the top frame while more than one is left keeps every stack non-empty |
| UserFunctions.LeaveAfterEnter | SmallBasicEV3Extension/F.cs:619-638 | a callee that leaves the stack as it found it gets the caller's stack back: the frame pushed is the frame removed |
| UserFunctions.Functions.constructor | SmallBasicEV3Extension/F.cs:35-37 | no start subroutine, no functions and no stacks |
| UserFunctions.Functions.GetCurrentStack | SmallBasicEV3Extension/F.cs:643-657 | the thread's stack, created on first use with one empty root frame and stored |
| UserFunctions.Functions.SetStart | SmallBasicEV3Extension/F.cs:42-50 | the start subroutine is recorded and nothing else changes |
| UserFunctions.Functions.Function | SmallBasicEV3Extension/F.cs:62-102 | an empty name or no pending start subroutine stores nothing; otherwise the definition with the parsed names and defaults is stored under the upper-cased name and the start subroutine is used up |
| UserFunctions.Assigned | SmallBasicEV3Extension/F.cs:114-124 | an assignment keeps every stack non-empty and leaves the stacks of all other threads unchanged |
| UserFunctions.AssignedReadsBack | SmallBasicEV3Extension/F.cs:116-124 | afterwards the top frame holds the same names; the named variable reads as the value assigned if the top frame held it, every other variable reads as before, and the frames below the top are untouched |
| UserFunctions.Functions.Set | SmallBasicEV3Extension/F.cs:110-126 | only a variable the top frame already holds is updated; every other frame and stack is left alone |
| UserFunctions.Functions.Get | SmallBasicEV3Extension/F.cs:178-195 | the variable is read, under its upper-cased name, from the top frame of the stack of the calling thread's key; an undefined variable reads as "" |
| UserFunctions.Functions.Return | SmallBasicEV3Extension/F.cs:159-171 | outside a function (fewer than two frames) there is no unwinding; inside, the unwinding carries the value |
| UserFunctions.Functions.Call | SmallBasicEV3Extension/F.cs:597-641 | an empty or undefined name gives "" and changes nothing; otherwise a frame of the arguments is pushed, the start subroutine runs, its returned value (or "") is the result and the top frame is removed while more than one is left |
| UserFunctions.ArgumentVisible | SmallBasicEV3Extension/F.cs:620 | inside a call, Get reads an argument under its parameter's name when that name is not repeated later |
| ExplorerSettingsFile.TryParse | EV3Explorer/ExplorerSettings.cs:40 | Int32.TryParse leaves a 32-bit value, and 0 when the text is not a number |
| ExplorerSettingsFile.ApplyLineFields | EV3Explorer/ExplorerSettings.cs:35-57 | a trimmed line sets each field whose key it starts with, ignoring case, and leaves the others; ONLYSHOWPROGRAMS only ever sets the flag |
| ExplorerSettingsFile.SaveLines | EV3Explorer/ExplorerSettings.cs:77-84 | Save writes four lines, and a fifth when only programs are shown |
| ExplorerSettingsFile.ExplorerSettings.constructor | EV3Explorer/ExplorerSettings.cs:17-24 | the defaults: 800 by 600, splitter at 400, no local directory, all files shown |
| ExplorerSettingsFile.ExplorerSettings.Load | EV3Explorer/ExplorerSettings.cs:26-64 | the loop applies the lines of the file in order |
| ExplorerSettingsFile.ExplorerSettings.LoadLine | EV3Explorer/ExplorerSettings.cs:35-57 | one pass of the loop applies one line |
| ExplorerSettingsFile.ExplorerSettings.LoadWidth | EV3Explorer/ExplorerSettings.cs:38-41 | a WIDTH= line sets the width |
| ExplorerSettingsFile.ExplorerSettings.LoadHeight | EV3Explorer/ExplorerSettings.cs:42-45 | a HEIGHT= line sets the height |
| ExplorerSettingsFile.ExplorerSettings.LoadSplitter | EV3Explorer/ExplorerSettings.cs:46-49 | a SPLITTER= line sets the splitter position |
| ExplorerSettingsFile.ExplorerSettings.LoadLocalDirectory | EV3Explorer/ExplorerSettings.cs:50-53 | a LOCALDIR= line sets the trimmed directory |
| ExplorerSettingsFile.ExplorerSettings.LoadFilter | EV3Explorer/ExplorerSettings.cs:54-57 | an ONLYSHOWPROGRAMS line sets the flag |
| ExplorerSettingsFile.ExplorerSettings.Save | EV3Explorer/ExplorerSettings.cs:66-88 | the lines written are the save lines of the current settings |
| ExplorerSettingsFile.ApplyLinesAppend | EV3Explorer/ExplorerSettings.cs:33-60 | lines are applied one after another, so a later line overrides an earlier one |
| ExplorerSettingsFile.LoadKeepsFilter | EV3Explorer/ExplorerSettings.cs:54-57 | Load never clears the program filter |
| ExplorerSettingsFile.UnparsableIsZero | EV3Explorer/ExplorerSettings.cs:40 | a WIDTH line whose value is not a number sets the width to 0 |
| ExplorerSettingsFile.SavedNumber | EV3Explorer/ExplorerSettings.cs:77-79 | the decimal text Save writes for a 32-bit number parses back to it |
| ExplorerSettingsFile.KeyText | EV3Explorer/ExplorerSettings.cs:35-57 | a saved key line is unchanged by trimming, starts with its key and holds the value after it |
| ExplorerSettingsFile.OtherKey | EV3Explorer/ExplorerSettings.cs:38-57 | a line whose first letter differs from a key's does not match that key |
| ExplorerSettingsFile.OnlyWidth | EV3Explorer/ExplorerSettings.cs:38-41 | a trimmed line that starts only with WIDTH= sets only the width |
| ExplorerSettingsFile.OnlyHeight | EV3Explorer/ExplorerSettings.cs:42-45 | a trimmed line that starts only with HEIGHT= sets only the height |
| ExplorerSettingsFile.OnlySplitter | EV3Explorer/ExplorerSettings.cs:46-49 | a trimmed line that starts only with SPLITTER= sets only the splitter position |
| ExplorerSettingsFile.OnlyDirectory | EV3Explorer/ExplorerSettings.cs:50-53 | a trimmed line that starts only with LOCALDIR= sets only the directory |
| ExplorerSettingsFile.WidthLine | EV3Explorer/ExplorerSettings.cs:77 | a saved WIDTH line sets exactly the width |
| ExplorerSettingsFile.HeightLine | EV3Explorer/ExplorerSettings.cs:78 | a saved HEIGHT line sets exactly the height |
| ExplorerSettingsFile.SplitterLine | EV3Explorer/ExplorerSettings.cs:79 | a saved SPLITTER line sets exactly the splitter position |
| ExplorerSettingsFile.DirectoryLine | EV3Explorer/ExplorerSettings.cs:80 | a saved LOCALDIR line sets exactly the directory, when it has no blank at either end |
| ExplorerSettingsFile.FilterLine | EV3Explorer/ExplorerSettings.cs:81-84 | the filter line sets exactly the flag |
| ExplorerSettingsFile.SaveLoadRoundTrip | EV3Explorer/ExplorerSettings.cs:26-88 | loading the lines Save wrote into fresh settings restores every field, when the directory has no line break and no blank at either end |
| ExplorerSettingsFile.LoadSavedText | EV3Explorer/ExplorerSettings.cs:26-88 | the round trip holds for any number texts Load reads back exactly |
| ExplorerWindow.InternalPath | EV3Explorer/MainWindow.xaml.cs:602-613 | a path under /home/root/lms2012/ becomes relative as "../..." from the brick's working folder; any other path is prefixed with "/." |
| ExplorerWindow.LastIndexOfFrom | EV3Explorer/MainWindow.xaml.cs:143 | the last '/' at or before the start index, or -1 when there is none |
| ExplorerWindow.TargetName | EV3Explorer/MainWindow.xaml.cs:416-447 | only .lms and .sb files, extension in any case, are compiled, to a name ending in ".rbf" |
| ExplorerWindow.TargetStem | EV3Explorer/MainWindow.xaml.cs:418-447 | the target keeps the source's name up to the extension |
| ExplorerWindow.Explorer.constructor | EV3Explorer/MainWindow.xaml.cs:73 | the brick browser starts in the projects folder |
| ExplorerWindow.Explorer.NavigateUp | EV3Explorer/MainWindow.xaml.cs:136-152 | the path is cut just after the last '/' before its final character |
| ExplorerWindow.Explorer.Select | EV3Explorer/MainWindow.xaml.cs:186-205 | a selected directory is entered; nothing else changes the path |
| ExplorerWindow.Up | EV3Explorer/MainWindow.xaml.cs:140-146 | navigating up from a path longer than one character with a '/' before its last character gives a shorter prefix ending in '/'; otherwise the path stays |
| ExplorerWindow.Enter | EV3Explorer/MainWindow.xaml.cs:196-201 | entering appends the name and '/', except that /proc/ is never entered |
| ExplorerWindow.UpAfterEnter | EV3Explorer/MainWindow.xaml.cs:136-205 | entering a directory and navigating up again comes back to the same path |
| ExplorerWindow.Latin1 | EV3Explorer/MainWindow.xaml.cs:671 | ISO-8859-1 decoding maps every byte to the character with its code |
| ExplorerWindow.LineEnd | EV3Explorer/MainWindow.xaml.cs:673 | the first line break, or the end; no break before it |
| ExplorerWindow.NextLine | EV3Explorer/MainWindow.xaml.cs:673 | the next line starts after "\r\n" taken as one break, after a single "\n" or "\r", or at the end of the text |
| ExplorerWindow.HeadLine | EV3Explorer/MainWindow.xaml.cs:673 | the first line ends with "\n", "\r" or "\r\n", or runs to the end of the text; a lone "\r" is not followed by "\n" |
| ExplorerWindow.SplitLines | EV3Explorer/MainWindow.xaml.cs:671-673 | the lines and their breaks put back together give the whole text; no line holds a break; each break is "\n", "\r" or "\r\n", and only a last, non-empty line has none; a "\r" break is never split from a following "\n" |
| ExplorerWindow.ReadLines | EV3Explorer/MainWindow.xaml.cs:671-673 | the lines ReadLine returns are the lines of SplitLines without their breaks, one per line, none holding a break |
| ExplorerWindow.HexNumber | EV3Explorer/MainWindow.xaml.cs:695 | a value exactly for a non-empty string of hexadecimal digits; one digit has its own value |
| ExplorerWindow.HexNumberAppend | EV3Explorer/MainWindow.xaml.cs:695 | appending digits shifts the value four bits per digit and adds theirs: the base-16 reading |
| ExplorerWindow.ParseHexInt | EV3Explorer/MainWindow.xaml.cs:695 | the trimmed text parses exactly when it is hexadecimal digits worth less than 2^32; the int is that value read as a 32-bit two's complement |
| ExplorerWindow.SizeExample | EV3Explorer/MainWindow.xaml.cs:695 | the size field " 2A" is trimmed and parsed to 42 |
| ExplorerWindow.Spaces | EV3Explorer/MainWindow.xaml.cs:685-694 | the two searches find the first two spaces; finding none or one means the line has at most one space |
| ExplorerWindow.FileEntry | EV3Explorer/MainWindow.xaml.cs:695-697 | a file line that parses gives a file entry, never a directory |
| ExplorerWindow.ListingEntry | EV3Explorer/MainWindow.xaml.cs:675-698 | a line ending in '/' is always accepted and is a directory named by the rest with size 0, except "." and ".." which are dropped; every other accepted entry is a file |
| ExplorerWindow.ListingEntrySkips | EV3Explorer/MainWindow.xaml.cs:685-694 | a line not ending in '/' is skipped exactly when it holds fewer than two spaces |
| ExplorerWindow.ListingEntrySplit | EV3Explorer/MainWindow.xaml.cs:685-697 | with two spaces, the line fails exactly when the text between the first two does not parse as a hexadecimal int; otherwise the file is named by the text after the second space and sized by that int |
| ExplorerWindow.FileLineExample | EV3Explorer/MainWindow.xaml.cs:685-697 | "AB 2A x.rbf" lists the file x.rbf of 42 bytes |
| ExplorerWindow.DirectoryLineExamples | EV3Explorer/MainWindow.xaml.cs:675-681 | "sub/" lists the directory sub; "../" is dropped |
| ExplorerWindow.Collect | EV3Explorer/MainWindow.xaml.cs:673-699 | collecting stops at the first error and keeps at most one entry per line |
| ExplorerWindow.CollectEntries | EV3Explorer/MainWindow.xaml.cs:680-697 | the collected entries are exactly the entries of the lines |
| ExplorerWindow.CollectAppend | EV3Explorer/MainWindow.xaml.cs:673-699 | collecting two runs of lines is collecting each in turn; the first error wins |
| ExplorerWindow.ListingEntries | EV3Explorer/MainWindow.xaml.cs:673-699 | at most one entry per line |
| ExplorerWindow.ListingEntriesLines | EV3Explorer/MainWindow.xaml.cs:673-699 | the listing parses exactly when every line does; then every line's entry is listed, every listed entry comes from a line, and "." and ".." are never listed |
| ExplorerWindow.ListingEntriesAppend | EV3Explorer/MainWindow.xaml.cs:673-699 | the entries of two listings in a row are those of the first then those of the second; an error in the first wins |
| ExplorerWindow.ListingEntriesOne | EV3Explorer/MainWindow.xaml.cs:675-698 | one line gives its entry, nothing, or its error |
| ExplorerWindow.ListingEntriesStep | EV3Explorer/MainWindow.xaml.cs:673-699 | one more line ends the parse with its error or adds its entry, if any, to the entries so far |
| ExplorerWindow.ParseListing | EV3Explorer/MainWindow.xaml.cs:673-699 | the parsing loop yields the entries of the lines in order, or the first error |
| ExplorerWindow.PrefixErr | EV3Explorer/MainWindow.xaml.cs:695 | an error on a line ends the parse with that error |
| ExplorerWindow.Insert | EV3Explorer/MainWindow.xaml.cs:702 | inserting adds the entry and loses none |
| ExplorerWindow.InsertAbove | EV3Explorer/MainWindow.xaml.cs:702 | inserting a name not below a bound keeps every name not below it |
| ExplorerWindow.InsertSorted | EV3Explorer/MainWindow.xaml.cs:702 | inserting keeps the list sorted |
| ExplorerWindow.SortByName | EV3Explorer/MainWindow.xaml.cs:702 | the sorted list is sorted by file name and a permutation of the entries |
| ExplorerWindow.ReadEV3Directory | EV3Explorer/MainWindow.xaml.cs:615-703 | the listing fails exactly when parsing a line fails; otherwise it is the parsed entries, sorted by name |
| ExplorerWindow.OrdinalTotal | EV3Explorer/MainWindow.xaml.cs:702 | ordinal comparison relates any two names |
| ExplorerWindow.OrdinalTrans | EV3Explorer/MainWindow.xaml.cs:702 | ordinal comparison is transitive |
| ExplorerWindow.OrdinalIsTotalPreorder | EV3Explorer/MainWindow.xaml.cs:702 | ordinal order is a comparison the sort can use |
| ExplorerWindow.ShowErrorMessages | EV3Explorer/MainWindow.xaml.cs:579-594 | the loop builds the message text |
| ExplorerWindow.ErrorTextJoins | EV3Explorer/MainWindow.xaml.cs:579-594 | when no message is empty, the text is the messages joined by the two characters "/n" |
| ExplorerWindow.JoinFirst | EV3Explorer/MainWindow.xaml.cs:585-588 | the joined text starts with the first message |
| ExplorerWindow.JoinLast | EV3Explorer/MainWindow.xaml.cs:590 | one more message is appended after "/n" |
| ExplorerWindow.EmptyFirstMessage | EV3Explorer/MainWindow.xaml.cs:585-588 | an empty first message is overwritten, not joined: no "/n" is written |
| NativeCode.BlanksAreBlank | native/nativecode.c:27 | the blanks "%s" and "%f" skip are exactly C's isspace characters |
| NativeCode.DigitRun | native/nativecode.c:27 | the longest run of decimal digits at the start of the text |
| NativeCode.DecimalValue | native/nativecode.c:27 | a decimal numeral has a non-negative value whose integer part is the value of its integer digits |
| NativeCode.Fraction | native/nativecode.c:27 | the digits after the point are worth less than one |
| NativeCode.FractionBelowOne | native/nativecode.c:27 | k digits are worth less than 10 to the k |
| NativeCode.ScanFloat | native/nativecode.c:27 | a "%f" conversion that succeeds consumes at least one character |
| NativeCode.ScanWord | native/nativecode.c:27 | a "%s" conversion yields a non-empty word without blanks and consumes it |
| NativeCode.ToULong | native/nativecode.c:42-44 | the cast to unsigned long yields a value below 2 to the width of unsigned long |
| NativeCode.Offset | native/nativecode.c:42-44 | the offset is computed in unsigned long arithmetic and stays below its bound |
| NativeCode.OffsetIsRowMajor | native/nativecode.c:42-44 | as long as nothing wraps around, the offset is row times bytes per row plus column |
| NativeCode.OffsetWrapsAround | native/nativecode.c:42-44 | in general the offset is that row-major position reduced modulo 2 to the width of unsigned long |
| NativeCode.ReducedFactors | native/nativecode.c:42-44 | reducing each cast value before the arithmetic gives the same result as reducing the exact sum |
| NativeCode.NoWrap | native/nativecode.c:42-44 | a row-major position below the modulus is not changed by the reduction |
| NativeCode.CharValue | native/nativecode.c:59-69 | the byte returned through plain char is the byte itself when char is unsigned, and the byte minus 256 for bytes from 128 when it is signed |
| NativeCode.SeekStepsExact | native/nativecode.c:45-57 | the seek loop's steps add up exactly to the offset, each between 1 and 2147483647, and there are none for offset 0 |
| NativeCode.Descriptor.Open | native/nativecode.c:36 | an opened file is at position 0 with no seeks made |
| NativeCode.Descriptor.SeekForward | native/nativecode.c:49-54 | lseek with SEEK_CUR moves the position forward by the step, which is recorded |
| NativeCode.Descriptor.ReadOne | native/nativecode.c:60 | read of one byte gives the byte under the position and advances it, or count 0 at the end of the file |
| NativeCode.Descriptor.Close | native/nativecode.c:62 | the descriptor is closed and nothing else changes |
| NativeCode.SeekInChunks | native/nativecode.c:45-57 | the loop seeks by the offset in total, in exactly the steps defined for it |
| NativeCode.TableLookup | native/nativecode.c:20-70 | an unparsable request, a row length below 1, a negative row or column, or a file that cannot be opened give 255 without a descriptor; otherwise the file is opened, sought in chunks to the offset and closed, and the result is the lookup's value |
| NativeCode.FirstOccurrenceAtStart | native/nativecode.c:75 | the first occurrence of the prefix is at position 0 exactly when the buffer starts with it |
| NativeCode.ProcessCommand | native/nativecode.c:72-85 | a buffer starting with "tablelookup " is looked up from its 13th character; any other gives 255 |
| NativeCode.ResultRange | native/nativecode.c:59-83 | every command result lies in 0..255 when plain char is unsigned and in -128..255 when it is signed |
| NativeCode.JoinArguments | native/nativecode.c:94-100 | the buffer is the arguments after the program name joined by single blanks |
| NativeCode.JoinStep | native/nativecode.c:96-100 | joining peels off one argument at a time |
| NativeCode.ReadLine | native/nativecode.c:105 | fgets gives nothing exactly at the end of the input, and otherwise a non-empty piece of at most 999 characters that the rest of the input follows |
| NativeCode.SessionShape | native/nativecode.c:105-111 | pipe mode writes two events per line read, the second a flush, and ends with the termination message |
| NativeCode.RunNative | native/nativecode.c:87-112 | with arguments, the joined command is processed once and its result, reduced modulo 256, is the exit status; without, every input line is answered and the status is 0 |
| NativeCode.CommandIsLookup | native/nativecode.c:75-77 | a command starting with the prefix answers the lookup of the rest |
| NativeCode.LookupFound | native/nativecode.c:20-70 | a valid request for a byte inside the file answers that byte through char |
| NativeCode.ExitStatusIsByte | native/nativecode.c:59-69 | for a valid lookup inside the file, the result reduced modulo 256 is the byte under either char signedness, and on the brick it is the byte itself |
| NativeCode.CharValueModulo | native/nativecode.c:59-69 | the char value is the byte modulo 256 |

## Left out

Outside the model:

- The USB, Bluetooth and WiFi transports; concurrency and locking; the WPF
  and Small Basic user interfaces; the clock; file and console I/O. These are
  outside what can be stated in Dafny. Where an operation depends on one, the
  dependency is a parameter:
  - the packets a connection receives;
  - the file system of the native helper;
  - the directory listing as bytes;
  - the reply to a brick command;
  - the callback that runs a Basic subroutine.
- The text of the runtime library resources read by `readLibrary`. Only the
  reading of one module's lines is modelled. `BasicCompiler.Compiler.constructor`
  states the compiler's state before the library is read.
- The whole-program drivers: `Compile`, `Assemble`, the rest of
  `ProcessLine`, `readByteCodeList`, and the main loop of `Disassemble`.
  These are I/O loops over the operations modelled here. Their individual
  steps are modelled: the scanner, expression code, the assembler's layout and
  the operand decoder.
- Constant folding in `NumberExpression`, `UnsafeArrayGetExpression`, and the
  `IsPositive`/`IsNegative` helpers (EV3BasicCompiler/Compiler.cs:1276-1372).
  These optimisations depend on C# double arithmetic.
- `AddFloatConstant` and every other 32-bit float encoding. The model does not
  have IEEE single precision.
- The Motor, Sensor and EV3 commands beyond their byte builders:
  - the polling loops that wait for a motor or sensor;
  - the "True"/"False" texts of `IsBusy`;
  - the payload layout of `CommunicateI2C`.
- The `LIST_FILES`/`CONTINUE_LIST_FILES` transfer loop of `ReadEV3Directory`.
  The listing arrives as bytes.
- The keep-alive command of `ReadEV3File`, which depends on the clock.
- The DirectCommand that `OpenWrite` of the EV3 file objects sends. It is a
  reply parameter.
- `ReadNumberArray`, `WriteNumberArray`, `WriteByte` and `ConvertToNumber` of
  the EV3 file objects.
- The `Call0`..`Call20` wrappers of `F`. They all forward to `Call`, which is
  modelled.
- The `ReturnNumber`/`ReturnText` coercions and the TextWindow messages of `F`.
- `FunctionDefinition.ToString`, which is only used for debugging output.

Integers and strings:

- Doubles are modelled as exact decimals:
  - the rounding of a default value to the nearest double is not modelled;
  - printing a double with 15 significant digits is not modelled;
  - "E+nn" notation is not modelled;
  - `double.TryParse` accepting "NaN" and "Infinity" is not modelled.
  A default value is therefore stored as the exact number of its numeral.
- FunctionDefinitions.FunctionDefinition.GetParameterDefaultLiteral: states
  that the literal reads back as the default's exact value. The source
  formats the double, so the text can differ: the default 1e20 is written
  "1E+20.0" by the source, where the model writes all 21 of its digits and
  ".0".
- NativeCode.ScanFloat: accepts only
  `[sign] digits [. digits]` and its value is exact. The source's `%f` also
  reads exponents, "inf", "nan" and hexadecimal floats, and rounds to a C
  `float`. For example, row 16777217 reads row 16777216 on the brick.
- NativeCode.ToULong: wraps values too large for `unsigned long` modulo its
  width. Such casts are undefined behaviour in C.
- NativeCode.JoinArguments: the source copies the arguments into a 1000-byte
  buffer with `strcpy`/`strcat`. The overflow on longer arguments is not
  modelled; the model's buffer is unbounded.
- Common.Upper: upper-cases only ASCII letters, where `ToUpperInvariant` also
  maps letters such as 'é'.
- ExplorerSettingsFile.StartsWithIgnoreCase, DirectoryEntries.EndsWithIgnoreCase
  and EV3Brick.EqualsIgnoreCase: fold case for ASCII only.
- ExplorerSettingsFile.SaveLoadRoundTrip: holds for a directory with no line
  break and no white space at either end; Load trims any other.
- Strings are sequences of Unicode scalar values, not UTF-16 code units.
  Lengths and escapes of characters outside the Basic Multilingual Plane
  differ from the source's.
- ExplorerWindow.SortByName: is proved for any total preorder given as a
  parameter. The source's culture-sensitive `String.CompareTo` is not
  modelled; the ordinal order (`ExplorerWindow.Ordinal`) is one instance.
  The sort is a permutation that is sorted; which of two equal names comes
  first is left open, as in `List.Sort`, which is unstable.
- EV3Connections.Connection: the message counter is a field of each
  connection and starts at 0. The source's `messagecounter` is static: all
  connections share it and it keeps counting from one connection to the next.
- The messages of the compiler's exceptions are modelled without the
  " at: line:column" suffix that the source appends.
- VMCommand.HexByte: covers only what the two-character byte fields can hold
  (two digits, or '+' and one digit). Convert.ToInt32's exception texts are
  not modelled: a field that does not parse, including one with a '-' sign
  (an ArgumentException in .NET), is a failure.
- Expressions.GenerateJump: a comparison or atomic leaf stands for its own
  generated code. The `AND 0xdfdfdfdf` upper-casing of text comparisons, the
  temporaries and the concrete label numbers of those leaves are not
  modelled; the and/or jump structure around them is.
- ByteCodeBuffer.GlobVarRoundTrip and ByteCodeBuffer.LocVarRoundTrip: hold
  only for the indices in `ReadsBack`. The one- and two-byte long forms are
  read back sign-extended, as `GlobVarMisread` shows for index 200.

## Findings

| source | as written | input that shows it | evidently intended | confidence | as-written member | corrected member |
|---|---|---|---|---|---|---|
| LMSAssembler/Assembler.cs:1019-1028 | the string operand loop stops only at a zero byte; at the end of the stream `ReadByte()` returns -1, masked to 0xff, so the loop never ends | the image [0x80]: a string lead with no terminator | stop with an error when the stream ends before the terminator | not executed | Disassembler.UnterminatedLiteralHangs | Disassembler.ReadString |
| EV3Communication/BinaryBuffer.cs:124-131 | Extract32 puts the second byte into bits 8..15 and again into bits 16..23, the third into bits 24..31, and never reads the fourth | Append32(65536) then Extract32 gives 16777216 | the little-endian inverse of Append32 | not executed | BinaryBuffer.Extract32NotInverse | BinaryBuffer.Extract32IntendedRoundTrip |
