# A verified model of eixx

eixx is a C++ library that gives a program the data types of Erlang, the binary format in
which Erlang nodes exchange them, and a connection to a cluster of such nodes. This project
models the parts of it that carry the most logic and proves what they are for:

- **Matching and substitution** (`Terms`, `Matching`, `MatchingLaws`, `Binding`). Matching a
  ground term against a pattern finds the least binding that makes the pattern stand for the
  term, and finds one whenever there is one. The code copies the binding at every nesting level
  and merges it back on success; that is shown to compute a single pass, and to leave the
  caller's binding alone on failure.
- **Text** (`Text`, `TextTokens`, `TextRoundTrip`, `TextExact`, `TextBased`, `TextForms`,
  `TextLaws`, `TextCursor`). The parser undoes the printer, with blanks and comments inserted
  between tokens and any delimiter-led text behind. The fragment on which it does is exact, for
  nested terms in any layout, lists written with a tail and numbers with a base included. What
  is printed, and what is read of texts that are never printed, is stated letter by letter.
- **Binary codec** (`Codec`, `CodecBuffer`, `CodecRoundTrip`, `Wire`, `WireExact`,
  `WireChoice`, `WireErrors`). The size pass predicts what the write pass writes; decoding
  undoes encoding up to a normal form, and two terms are the same on the wire exactly when they
  have the same normal form. `Wire` is a grammar of the format in literal bytes, with every form that a peer
  may send: decoding accepts exactly that grammar, with exactly its meanings, and encoding
  writes one particular form of it, and no term is decoded from a buffer that ends too early.
- **Distribution messages** (`Messages`, `MessageLaws`). Sending and receiving a message is the
  identity up to that normal form; what is sent, received and refused is stated in bytes.
- **List storage** (`ListCells`). The chain of inline and overflow cells is a sequence.
- **Handshake** (`Handshake`, `HandshakeSafety`, `HandshakeLaws`, `HandshakeConnection`).
  Safety, outcome and length of every run of the connection's state machine, carried by the
  connection object, and a table of what ends an attempt and where everything else leads.
- **Outgoing queue** (`WriteQueue`), **atom table** (`AtomTable`), **pid numbers**
  (`PidCounter`), **mailbox registry** (`Registry`, `RegistryObjects`) and **asynchronous
  queue** (`AsyncQueue`, `AsyncQueueLaws`): invariants over every run and every interleaving.

Pure code is modelled by functions on values. Code that updates an object, a buffer or a
cursor is modelled by classes and methods, each proved against a function of the old state;
the theorems are about those functions. `/** */` comments in the files say what each
step stands for. The laws state tags, codes, limits and letters as literals, and not through
the constants and predicates of the model.

Names, texts and buffers are sequences of byte values. Numbers are unbounded in Dafny; where
the width matters in the source it is written out (28-bit small integers, 16- and 32-bit
lengths, the wrap-around of `fast_atoi`, the saturation of `strtol`). The `ei_*` primitives of
the Erlang interface library are not part of the repository. They are specified from the
"External Term Format" chapter of the ERTS User's Guide, in the configuration where all the
modern tags are defined.

## Where the code does not do what one expects

The model keeps the code's behaviour. These are results, each with a lemma:

- A string or a quoted atom is read back only if no quote in it stands without a backslash in
  front, it does not end in a backslash, and it holds no NUL, where printing stops; the printer
  does not escape anything. An atom
  such as `a-b` is printed without quotes and then read as `a`. A printable binary that
  contains `">>` is cut short. A nested term is read back if and only if none of this happens
  anywhere in it (`TextExact.TermReadsIff`, `TextExact.LayoutReadsIff`).
- A list written with a tail, `[H|T]`, has the tail as its last element, and the parser stops
  on its bracket (`TextExact.TailedReads`). An enclosing tuple then fails and an enclosing list
  closes early. A layout of readable leaves is read to its end if and only if no list in it has
  a tail (`TextExact.ReadToEndIffNoTail`); the value alone comes out right if and only if there
  is at the most one tail, at the very end (`TextExact.LayoutReadsIff`). The documentation of
  the parser calls tails unsupported; the code accepts them.
- A number with a base, `16#ff`, has the right value in every base from 2 to 36, but is read
  to its end if and only if all its digits are decimal (`TextBased.BasedReadsIff`).
- A name with a NUL byte can hide another name in the atom table (`AtomTable.NulHidesName`).
  `get(lookup(s)) == s` if and only if no other name with the same C string is there
  (`AtomTable.GetUndoesLookupIff`).
- Pid numbers repeat too early if and only if some reset of the counter finds it below its
  limit, set back already by another thread (`PidCounter.NumbersSpreadIffOrderly`). Whenever two
  threads are about to reset it that can happen (`PidCounter.OverlapRepeats`); if only one
  ever is, it cannot (`PidCounter.AloneRunsCount`).
- A version 6 node with a name of more than 120 bytes that epmd lists with version 5 is refused,
  although its challenge is well formed (`HandshakeSafety.HonestAnsweredIff`).
- A node that answers `sok_simultaneous` is refused: the next header is read three bytes on,
  whatever the length of the status. A status lets the handshake go on if and only if it is
  `sok`, or continues with a NUL byte (`HandshakeSafety.StatusTakenIff`,
  `HandshakeSafety.OtherStatusEnds`).
- The registry accepts a closed mailbox, which then is found by name. Its two indexes agree
  all the time exactly when nobody does that (`Registry.IndexesAgreeIffCareful`).
- Outgoing buffers leak exactly when a write fails, when the connection is stopped while it
  holds any, or when something is written after that (`WriteQueue.AllFreedIffTidy`,
  `WriteQueue.FailedWriteLeaks`).

## Model

| member | source | states |
|---|---|---|
| Terms.EqualIsIdentity | include/eixx/marshal/eterm.hxx:126-151 | `operator==` on NUL-free terms is identity of ground terms; a variable equals nothing |
| Terms.EqualSymmetric | include/eixx/marshal/eterm.hxx:126-151 | `operator==` does not depend on the side |
| Terms.Utf8LengthCounts | include/eixx/util/atom_table.hpp:48-53 | the length that limits a name is the number of bytes before the first NUL that start a code point |
| Matching.MatchIsLeastInstance | include/eixx/marshal/eterm.hxx:388-408 | a match of a ground term never throws, succeeds iff some extension of the bindings makes the pattern stand for the term, and leaves the least such extension, on exactly the old names and the pattern's; without `_`, substituting it into the pattern gives the term |
| Matching.MatchSound | include/eixx/marshal/var.hpp:119-133 | on success the bindings only grew, hold ground values and make the pattern an instance |
| Matching.MatchLeast | include/eixx/marshal/var.hpp:119-133 | if any extension makes the pattern an instance, the match succeeds and its result is contained in it |
| Matching.MatchVariable | include/eixx/marshal/var.hpp:119-133 | a typed variable accepts a value iff the value is of its type, constructor by constructor, and it is unbound or bound to that value |
| Matching.InstanceIsSubstitution | include/eixx/marshal/var.hpp:109-117 | "the pattern stands for the term" is: `subst` resolves every variable and leaves the term |
| Matching.MatchOrientation | include/eixx/marshal/visit_match.hpp:50-62 | `t.match(p)` and `p.match(t)` give the same answer and bindings for ground `t` |
| Matching.ValuesMatchIffEqual | include/eixx/marshal/visit_match.hpp:50-62 | two ground values match iff they are equal, and bind nothing |
| Matching.ApplyIsGround | include/eixx/marshal/var.hpp:109-117 | substituting ground bindings removes every variable, so what `match` binds is ground |
| MatchingLaws.FreeVariableTakes | include/eixx/marshal/var.hpp:53-133 | a free variable, on either side, takes a value iff it is untyped, the value is of the constructor that its type names, or the type is string and the value the empty list; it is then bound to it |
| MatchingLaws.BoundVariableTakes | include/eixx/marshal/var.hpp:119-133 | a bound variable takes a value iff that is its own and of its type, by the same cases |
| MatchingLaws.AnonymousTakesAll | include/eixx/marshal/var.hpp:119-133 | `_` takes every ground term and binds nothing |
| MatchingLaws.SubstThrowsIff | include/eixx/marshal/var.hpp:109-117 | `subst` throws iff some variable is unbound or bound to a value that is not of its type, case by case; the exception names the first such occurrence |
| MatchingLaws.SubstOfVariable | include/eixx/marshal/var.hpp:109-117 | one variable is replaced by its value or named in the exception |
| MatchingLaws.StringsEqualIff | include/eixx/marshal/eterm.hxx:126-151 | two strings are equal iff they are of one length and agree up to the first NUL |
| Binding.Varbind.Bind | include/eixx/marshal/varbind.hpp:114-117 | binds only an unbound name |
| Binding.Varbind.Find | include/eixx/marshal/varbind.hpp:130-134 | finds exactly the bound names |
| Binding.Varbind.Copy | include/eixx/marshal/varbind.hpp:98-98 | replaces all bindings |
| Binding.Varbind.Merge | include/eixx/marshal/varbind.hpp:170-174 | the loop adds every pair whose name is unbound |
| Binding.Subst | include/eixx/marshal/eterm.hxx:410-416 | throws on the first unresolved variable, answers true iff the term has a variable, and then is simultaneous substitution |
| Binding.SubstTuple | include/eixx/marshal/tuple.hxx:72-96 | the same for tuples, element by element |
| Binding.SubstList | include/eixx/marshal/list.hxx:212-243 | the same for lists |
| Binding.MatchTerm | include/eixx/marshal/eterm.hxx:388-408 | copying and merging at every level computes the single pass; any failure or exception, however deep, leaves the caller's bindings unchanged |
| Binding.MatchVar | include/eixx/marshal/var.hpp:119-133 | a bound variable re-enters matching with its value, an unbound one is bound to the substituted pattern |
| Binding.MatchElements | include/eixx/marshal/tuple.hxx:98-116 | the element loops of tuples and lists thread the bindings from left to right |
| TextRoundTrip.ParseUndoesLayout | include/eixx/marshal/eterm_format.hxx:352-447 | for every readable term, laid out with any blanks and comments between tokens and followed by any delimiter-led text, the parser returns the term and stops right behind it |
| TextRoundTrip.ParseUndoesPrint | include/eixx/marshal/eterm_format.hxx:352-447 | the printed form of every readable nested term is read back |
| TextRoundTrip.StringReadsIff | include/eixx/marshal/eterm_format.hxx:220-237 | a printed string is read back iff its quotes are preceded by a backslash and it does not end in one |
| TextRoundTrip.BinaryReadsIff | include/eixx/marshal/binary.hpp:136-145 | a printed binary is read back iff it is not printed as text that contains `">>` |
| TextRoundTrip.AtomReadsIff | include/eixx/marshal/atom.hpp:246-252 | a printed atom is read back iff it is a bare atom, or is printed quoted and is quote-safe |
| TextExact.LayoutReadsIff | include/eixx/marshal/eterm_format.hxx:352-447 | for every layout of printable leaves, with blanks, comments and tails: the term is returned and the cursor behind it iff every leaf is readable and no list has a tail; the value alone is right iff, at the most, there is one tail at the very end, and where the cursor then is |
| TextExact.ReadToEndIffNoTail | include/eixx/marshal/eterm_format.hxx:306-447 | a layout of readable leaves is read to its end iff no list in it has a tail |
| TextExact.TailedReads | include/eixx/marshal/eterm_format.hxx:306-350 | every list with a tail is read as its items and the tail, with the cursor on the bracket |
| TextExact.TermReadsIff | include/eixx/marshal/eterm_format.hxx:352-447 | for every nested printable term: its printed form is read back iff the term is readable |
| TextExact.LeafExact | include/eixx/marshal/eterm_format.hxx:426-441 | a printed token that yields its own value, wherever the parser stops, is readable |
| TextExact.TermIsGood | include/eixx/marshal/eterm_format.hxx:112-150 | no input makes the parser yield a variable with a name it could not have read |
| TextExact.HeadAndTail | include/eixx/marshal/eterm_format.hxx:306-350 | the instance `[H` bar `T]` |
| TextBased.BasedReads | include/eixx/marshal/eterm_format.hxx:186-218 | for every base from 2 to 36 and every digit sequence: the value by position, saturated, and the cursor behind the leading decimal digits |
| TextBased.BasedReadsIff | include/eixx/marshal/eterm_format.hxx:186-218 | a number with a base has the right value, and is read to its end iff all its digits are decimal |
| TextBased.SixteenFF | include/eixx/marshal/eterm_format.hxx:186-218 | the instance `16#ff` |
| TextLaws.TypeNamedIff | include/eixx/marshal/eterm.hxx:40-99 | a word names a type iff it is a prefix, of three letters or more, of one of the words for that type, all given as literals; no word names two types |
| TextLaws.AnnotationReads | include/eixx/marshal/eterm_format.hxx:112-150 | `Name::word()` is a variable of exactly the type that the word names, for every readable name and every word, and an error if it names none; `_` never has a type |
| TextLaws.AnnotationNeedsParentheses | include/eixx/marshal/eterm_format.hxx:112-150 | without `()` behind the word it is an error |
| TextForms.LongForm | include/eixx/marshal/visit_to_string.hpp:52-52 | integers are printed as decimal digits, by place value, with a minus sign if negative |
| TextForms.AtomForm | include/eixx/marshal/atom.hpp:246-252 | an atom is printed between single quotes iff it is empty or does not start with a lower-case letter, or holds a blank |
| TextForms.StringForm | include/eixx/marshal/string.hpp:267-269 | a string is printed between double quotes, up to its first NUL |
| TextForms.BinaryForm | include/eixx/marshal/binary.hpp:136-145 | a binary is printed as text iff all its bytes are printable, and as decimal numbers with commas otherwise |
| TextForms.VariableForm | include/eixx/marshal/var.hpp:85-89 | a variable is printed as its name, with `::word()` if it has a type |
| TextForms.PidForm | include/eixx/marshal/pid.hpp:224-230 | a pid is printed as node, id and serial with dots, then the creation after a comma unless it is 0 |
| TextForms.RefForm | include/eixx/marshal/ref.hpp:268-275 | a reference is printed as node and ids with dots, then the creation after a comma unless it is 0 |
| TextForms.TupleForm | include/eixx/marshal/tuple.hxx:119-128 | the printed elements with commas, in braces |
| TextForms.ListForm | include/eixx/marshal/list.hxx:274-284 | the printed elements with commas, in brackets |
| TextForms.CharacterReads | include/eixx/marshal/eterm_format.hxx:418-420 | `$c` is the code of the character as a signed byte |
| TextForms.ByteListReads | include/eixx/marshal/eterm_format.hxx:388-414 | a binary of numbers is read with blanks around them, leading zeros, minus signs, and 0 for an entry without digits, each number wrapped to an `int` |
| TextForms.NumeralTaken | include/eixx/marshal/eterm_format.hxx:395-410 | one entry of such a binary: collected, or refused for its value, for what stands behind it, or for being blank at the end of the list; a comma may end the list |
| TextForms.ByteListRefuses | include/eixx/marshal/eterm_format.hxx:388-414 | one number outside 0..255, wherever it stands, is an error |
| TextForms.IntegerIs | include/eixx/marshal/eterm_format.hxx:186-218 | what `strtol` makes of any blanks, sign and digits in any base: the value by position, cut to 64 bits, and where it stops |
| TextForms.DecimalReads | include/eixx/marshal/eterm_format.hxx:186-218 | a signed decimal number is its value, cut to 64 bits, and read to its end |
| TextForms.PointIsDouble | include/eixx/marshal/eterm_format.hxx:186-218 | a decimal point behind the digits makes the number a double |
| TextForms.QuotedIs | include/eixx/marshal/eterm_format.hxx:165-182 | quoted text ends at the first quote without a backslash in front, or is an error if a NUL or the end comes first |
| TextForms.TextBinaryIs | include/eixx/marshal/eterm_format.hxx:381-387 | a binary in quotes ends at the first `">>`, or is an error |
| TextForms.BareAtomIs | include/eixx/marshal/eterm_format.hxx:152-163 | a lower-case letter begins an atom of the longest run of letters, digits, underscores and at signs |
| TextForms.BareVariableIs | include/eixx/marshal/eterm_format.hxx:112-150 | an upper-case letter or underscore begins a variable of the longest run of letters, digits and underscores |
| TextForms.OtherStarts | include/eixx/marshal/eterm_format.hxx:426-443 | which first characters are no term at all |
| TextForms.SkipIs | include/eixx/marshal/eterm_format.hxx:96-110 | what is skipped: blanks, tabs, line ends, and comments from a percent sign to the line end |
| TextForms.SeparatorsAre | include/eixx/marshal/eterm_format.hxx:274-350 | what the parser does behind an element, by its next character |
| TextForms.TailIs | include/eixx/marshal/eterm_format.hxx:306-350 | what it does behind a bar |
| TextTokens.LongReads | include/eixx/marshal/eterm_format.hxx:186-218 | every 64-bit integer is read back from its decimal form |
| TextTokens.VarReads | include/eixx/marshal/eterm_format.hxx:112-150 | a variable is read back with its type annotation |
| TextTokens.QuotedReads | include/eixx/marshal/eterm_format.hxx:165-182 | where the scan for the closing quote stops, for strings and quoted atoms |
| TextTokens.ScanQuotedIsFirst | include/eixx/marshal/eterm_format.hxx:220-237 | the scan stops at the first quote that no backslash precedes, if no NUL comes first |
| TextTokens.ByteBinaryReads | include/eixx/util/string_util.hpp:43-51 | the number list form of a binary is read back |
| TextTokens.LeafReads | include/eixx/marshal/eterm_format.hxx:426-441 | every token in front of a delimiter is read back to its end |
| TextCursor.Cursor.EFormat | include/eixx/marshal/eterm_format.hxx:352-447 | the recursive descent over the shared cursor is the specified parser |
| TextCursor.Cursor.SkipBlanksAndComments | include/eixx/marshal/eterm_format.hxx:96-110 | the loop skips blanks and comments, to the end of the text at most |
| TextCursor.Cursor.PVariable | include/eixx/marshal/eterm_format.hxx:112-150 | name, optional `::type()` suffix, or an error |
| TextCursor.Cursor.PAtom | include/eixx/marshal/eterm_format.hxx:152-163 | the longest run of atom characters |
| TextCursor.Cursor.PQuoted | include/eixx/marshal/eterm_format.hxx:165-182 | quoted text up to the first unescaped quote, or an error |
| TextCursor.Cursor.PDigit | include/eixx/marshal/eterm_format.hxx:186-218 | the number scan with its base prefix |
| TextCursor.Cursor.FastAtoiLoop | include/eixx/util/string_util.hpp:70-92 | the digit loop, with the wrap-around of `int` |
| TextCursor.Cursor.PBinary | include/eixx/marshal/eterm_format.hxx:376-420 | both forms of a binary |
| TextCursor.Cursor.PTuple | include/eixx/marshal/eterm_format.hxx:274-304 | the elements up to the closing brace |
| TextCursor.Cursor.PList | include/eixx/marshal/eterm_format.hxx:306-350 | the elements up to the closing bracket, or a tail |
| Codec.SizeIsExact | include/eixx/marshal/eterm.hxx:336-342 | the size pass predicts the write pass for every encodable term, at every boundary |
| CodecRoundTrip.DecodeUndoesEncode | include/eixx/marshal/eterm.hxx:229-334 | at any offset and whatever surrounds the bytes, decoding an encoded term gives its normal form and advances by the encoded length |
| CodecRoundTrip.NormIsIdempotent | include/eixx/marshal/eterm.hxx:229-334 | normalising twice changes nothing |
| CodecRoundTrip.NormKeepsBytes | include/eixx/marshal/eterm.hxx:354-386 | a term and its normal form are encoded by the same bytes |
| CodecRoundTrip.SameBytesIffSameNorm | include/eixx/marshal/eterm.hxx:354-386 | two terms are encoded alike iff their normal forms are equal |
| CodecRoundTrip.BigDecodes | include/eixx/marshal/visit_encode_size.hpp:37-47 | integers beyond 28 bits round-trip through sign and magnitude |
| CodecRoundTrip.AtomNameDecodes | include/eixx/marshal/atom.hpp:227-243 | atom names round-trip on both sides of 255 bytes |
| CodecRoundTrip.PidDecodes | include/eixx/marshal/pid.hxx:35-105 | pids round-trip |
| CodecRoundTrip.RefDecodes | include/eixx/marshal/ref.hxx:37-139 | references of three to five ids round-trip |
| CodecRoundTrip.OverlongStringDecodes | include/eixx/marshal/string.hpp:182-193 | a string over 65535 bytes comes back as a list of integers |
| Wire.DecodeReadsWire | include/eixx/marshal/eterm.hxx:229-334 | wherever one of the forms of the wire format stands, each in literal bytes, decoding gives what it means and stops behind it, or refuses it for the stated reason |
| WireExact.DecodeIffWire | include/eixx/marshal/eterm.hxx:229-334 | decoding yields a term and a position iff a form that means this term stands there and ends there |
| WireExact.IntegerIsDecoded | include/eixx/marshal/eterm.hxx:276-285 | any 32-bit integer as INTEGER_EXT, negative ones in two's complement |
| WireExact.LargeBigIsDecoded | include/eixx/marshal/eterm.hxx:276-285 | LARGE_BIG_EXT by sign and little-endian digits, refused iff it does not fit 64 bits |
| WireExact.LatinAtomIsDecoded | include/eixx/marshal/atom.hpp:116-134 | ATOM_EXT and SMALL_ATOM_EXT |
| WireExact.OldPidIsDecoded | include/eixx/marshal/pid.hxx:35-70 | PID_EXT with two bits of creation, refused iff its node name is |
| WireExact.NewReferenceIsDecoded | include/eixx/marshal/ref.hxx:37-99 | NEW_REFERENCE_EXT with 18 bits of each of three to five ids |
| WireChoice.EncodeSpellsChoice | include/eixx/marshal/eterm.hxx:354-386 | encoding writes one form for each term, chosen by literal ranges and lengths, byte for byte |
| WireChoice.EncodableIff | include/eixx/marshal/eterm.hxx:354-386 | which terms can be written, by literal ranges and lengths |
| WireErrors.OtherTags | include/eixx/marshal/eterm.hxx:229-334 | the end of the buffer is an empty term, the old reference has too few ids, and every tag that is not one of the 19 known ones is refused |
| WireErrors.CutTermFails | include/eixx/marshal/eterm.hxx:229-334 | no term, however nested, is decoded from a buffer that ends before its bytes do |
| WireErrors.CutFormIsTruncated | include/eixx/marshal/eterm.hxx:229-334 | a simple form that ends early, wherever behind its tag, is reported as truncated |
| CodecBuffer.EncodePacket | include/eixx/marshal/eterm.hxx:354-386 | the write pass fills the buffer of the predicted size to its last byte; it fails iff the header size is not 0, 1, 2 or 4 |
| CodecBuffer.EncodeTerm | include/eixx/marshal/eterm.hxx:344-352 | the same into a fresh buffer; variables are refused |
| CodecBuffer.EncodeInto | include/eixx/marshal/eterm.hxx:354-386 | writes the encoding at the offset and nothing else |
| CodecBuffer.WriteAtom | include/eixx/marshal/atom.hpp:227-243 | writes an atom in place |
| CodecBuffer.WritePid | include/eixx/marshal/pid.hxx:72-105 | writes a pid in place |
| CodecBuffer.WriteRef | include/eixx/marshal/ref.hxx:101-139 | writes a reference in place |
| CodecBuffer.WriteBinary | include/eixx/marshal/binary.hxx:54-69 | writes a binary in place |
| CodecBuffer.WriteTuple | include/eixx/marshal/tuple.hxx:56-70 | writes a tuple in place |
| CodecBuffer.WriteList | include/eixx/marshal/list.hxx:143-168 | writes a list in place |
| CodecBuffer.ReadTerm | include/eixx/marshal/eterm.hxx:229-334 | the reading loops compute the specified decoder |
| CodecBuffer.ReadTuple | include/eixx/marshal/tuple.hxx:39-54 | reads the arity and then that many terms |
| CodecBuffer.ReadList | include/eixx/marshal/list.hxx:102-141 | reads the elements and the closing nil; an arity of 0 does not consume it |
| Messages.ReceiveUndoesSend | include/eixx/connect/transport_otp_connection.hxx:352-400 | for every message that the constructors build: the length field counts the bytes behind it, and they decode to the same type, control tuple and payload up to normal form |
| Messages.WriteFrame | include/eixx/connect/transport_otp_connection.hxx:450-485 | `send` fills one buffer of the computed size with exactly the frame |
| Messages.TransportMsgDecode | include/eixx/connect/transport_otp_connection.hxx:352-400 | the decoding steps and their errors are the specified receiver |
| Messages.TransportMsg.SetSend | include/eixx/connect/transport_msg.hpp:238-253 | the whole message, its code in literals; what the accessors then say, and that type and payload agree |
| Messages.TransportMsg.SetRegSend | include/eixx/connect/transport_msg.hpp:255-270 | the whole message, its code in literals; what the accessors then say, and that type and payload agree |
| Messages.TransportMsg.SetExit | include/eixx/connect/transport_msg.hpp:290-296 | the whole message, its code in literals; what the accessors then say, and that there is no payload |
| Messages.TransportMsg.SetExit2 | include/eixx/connect/transport_msg.hpp:298-303 | the whole message, its code in literals; what the accessors then say, and that there is no payload |
| Messages.TransportMsg.SetMonitor | include/eixx/connect/transport_msg.hpp:305-317 | the whole message, its code in literals; what the accessors then say, and that there is no payload |
| Messages.TransportMsg.SetDemonitor | include/eixx/connect/transport_msg.hpp:319-331 | the whole message, its code in literals; what the accessors then say, and that there is no payload |
| Messages.TransportMsg.SetMonitorExit | include/eixx/connect/transport_msg.hpp:333-353 | the whole message, its code in literals; what the accessors then say, and that there is no payload |
| MessageLaws.FrameSpells | include/eixx/connect/transport_otp_connection.hxx:450-485 | a frame is its length in four bytes, 112, 131 and the control tuple, and 131 and the payload iff the code is 2, 6, 12 or 16 |
| MessageLaws.ReceivedIff | include/eixx/connect/transport_otp_connection.hxx:352-400 | a message is received iff the bytes are 112, 131, a control tuple that starts with its code from 1 to 21, and behind it, iff the code is 2, 6, 12 or 16, 131 and its payload |
| MessageLaws.RefusedIff | include/eixx/connect/transport_otp_connection.hxx:352-400 | each refusal, by the bytes that cause it |
| MessageLaws.SenderIs | include/eixx/connect/transport_msg.hpp:125-143 | where the sender stands, by message code |
| MessageLaws.RecipientIs | include/eixx/connect/transport_msg.hpp:155-177 | where the recipient stands, by message code |
| MessageLaws.ReasonIs | include/eixx/connect/transport_msg.hpp:216-226 | where the reason stands, by message code |
| MessageLaws.ReferenceIs | include/eixx/connect/transport_msg.hpp:204-213 | where the reference stands, by message code |
| MessageLaws.PacketIs | include/eixx/marshal/eterm.hxx:354-386 | a packet is its length in 0, 1, 2 or 4 bytes, most significant first, the byte 131 if wanted, and the term |
| MessageLaws.WellBuiltIff | include/eixx/connect/transport_msg.hpp:228-353 | what the constructors establish: a code from 1 to 21 that also stands first in the control tuple, and a payload iff it is 2, 6, 12 or 16 |
| ListCells.CellList.PushBack | include/eixx/marshal/list.hxx:184-210 | the contents grow by one at the end; the inline block keeps its size and cells outside the list are untouched |
| ListCells.CellList.PushAll | include/eixx/marshal/list.hxx:184-210 | any number of appends to a reserved or default list appends them all |
| ListCells.CellList.FromItems | include/eixx/marshal/list.hxx:38-63 | a closed list with the given items, all inline |
| ListCells.CellList.Walk | include/eixx/marshal/list.hpp:97-116 | following `next` from the first cell meets exactly the contents |
| ListCells.CellList.Length | include/eixx/marshal/list.hpp:217-218 | `size` is the number of elements |
| ListCells.CellList.Tail | include/eixx/marshal/list.hxx:170-182 | a closed copy of what is behind the position, or an error iff there is no such position |
| ListCells.CellList.Release | include/eixx/marshal/list.hpp:97-116 | every element is destroyed once, every overflow cell freed once, no inline cell freed |
| HandshakeSafety.ConnectedIsAuthenticated | include/eixx/connect/transport_otp_connection_tcp.hxx:254-875 | on every run that connects: epmd listed the peer in a positive reply with version 5 or more, a status said `sok`, the version is 5 or 6, the flag bits 4, 0x100 and 0x800 are set, the acknowledgement has tag 97 and the digest of our cookie and challenge, what was sent follows from that, and a complement was sent iff the version rose from 5 to 6 |
| HandshakeSafety.EveryRunHasOneOutcome | include/eixx/connect/transport_otp_connection_tcp.hxx:91-875 | always at most one pending operation, in the state its handler asserts; exactly one callback, and the run can go on iff none was made yet |
| HandshakeSafety.RunsAreBounded | include/eixx/connect/transport_otp_connection_tcp.hxx:91-875 | the completions so far and the stages and endpoints left are bounded, so every run ends |
| HandshakeSafety.StepMakesProgress | include/eixx/connect/transport_otp_connection_tcp.hxx:91-875 | every completion but a successful resolution lowers the measure |
| HandshakeSafety.WillingPeerConnects | include/eixx/connect/transport_otp_connection_tcp.hxx:466-875 | for any looked-up version from 5 on and any honest acceptable challenge that is not refused as too long there is a run that connects |
| HandshakeSafety.HonestAnsweredIff | include/eixx/connect/transport_otp_connection_tcp.hxx:547-748 | a challenge whose frame length is that of its content is answered, in one piece or two, iff it is acceptable and not a version 6 challenge with a name over 120 bytes from a node looked up with version 5 |
| HandshakeSafety.StatusTakenIff | include/eixx/connect/transport_otp_connection_tcp.hxx:466-545 | the handshake goes on iff the status is `sok` or continues with a NUL byte |
| HandshakeSafety.OtherStatusEnds | include/eixx/connect/transport_otp_connection_tcp.hxx:422-545 | every run in which the peer gives another status ends there, with one failure callback |
| HandshakeSafety.SimultaneousIsRefused | include/eixx/connect/transport_otp_connection_tcp.hxx:533-545 | `sok_simultaneous` starts with `sok` and is one of those |
| HandshakeSafety.RunJustified | include/eixx/connect/transport_otp_connection_tcp.hxx:254-875 | in every state, what it says about the past was heard and what was sent follows from it |
| HandshakeSafety.WelcomeIff | include/eixx/connect/transport_otp_connection_tcp.hxx:595-706 | a challenge is acceptable iff its tag is 110 with version 5 and at most 128 bytes of name, or its tag is 78 with a name that fits and has at most 128 bytes, and the flag bits 4, 0x100 and 0x800 are set |
| HandshakeLaws.ContinuesIff | include/eixx/connect/transport_otp_connection_tcp.hxx:91-875 | a run can go on with exactly the completions of its pending operation, whatever they bring |
| HandshakeLaws.FailsIff | include/eixx/connect/transport_otp_connection_tcp.hxx:91-875 | in each state, exactly which completions end the attempt: all sizes, tags, codes and flag bits are literals |
| HandshakeLaws.StepFollows | include/eixx/connect/transport_otp_connection_tcp.hxx:91-875 | where every other completion leads: the next operation, what is sent, and the version, flags and challenge that are kept |
| HandshakeLaws.RunFollows | include/eixx/connect/transport_otp_connection_tcp.hxx:91-875 | the same for every run: it goes on to a single failure callback iff the completion is refused, and by the table otherwise |
| HandshakeLaws.NegativeReplyEnds | include/eixx/connect/transport_otp_connection_tcp.hxx:207-314 | a reply of epmd that is not of kind 119 with result 0, or that lists a version below 5, is the end of its run |
| Handshake.Step | include/eixx/connect/transport_otp_connection_tcp.hxx:91-875 | a completion keeps the connection sound: one pending operation or one callback |
| HandshakeConnection.TcpConnection.Complete | include/eixx/connect/transport_otp_connection_tcp.hxx:91-875 | the object stays where its completions lead, takes exactly the step, has one pending operation or one callback, and its measure goes down |
| HandshakeConnection.TcpConnection.Peer | include/eixx/connect/transport_otp_connection_tcp.hxx:817-875 | if the object is connected: version 5 or 6, the flag bits 4, 0x100 and 0x800, `sok` and an accepted challenge heard, the right digest last, and a complement sent iff the version rose |
| HandshakeConnection.TcpConnection.RunToOutcome | include/eixx/connect/transport_otp_connection_tcp.hxx:55-875 | however the operations complete, the attempt ends with exactly one callback, `on_connect` iff connected |
| HandshakeConnection.TcpConnection.PeerConnected | include/eixx/connect/transport_otp_connection_tcp.hxx:316-399 | the greeting for the looked-up version is sent iff the socket connected and our name fits the buffer; otherwise one failure callback |
| HandshakeConnection.TcpConnection.EpmdBodyRead | include/eixx/connect/transport_otp_connection_tcp.hxx:254-314 | the version is the lower of the reported one and 6; the peer is contacted iff the reported one is at least 5 |
| HandshakeConnection.TcpConnection.ChallengeBodyRead | include/eixx/connect/transport_otp_connection_tcp.hxx:595-748 | a challenge is answered iff its tag, version, name length and flag bits are the literal ones of `Welcome`: with a complement iff it raises the version, and the digest of its challenge and our cookie; otherwise its fields are noted and there is one failure callback |
| HandshakeConnection.TcpConnection.AckBodyRead | include/eixx/connect/transport_otp_connection_tcp.hxx:817-875 | connected iff the acknowledgement has tag `a` and the digest of our cookie and challenge; one callback either way |
| WriteQueue.NothingLostOrReordered | include/eixx/connect/transport_otp_connection.hpp:202-253 | after any events accepted = freed, then in flight, then waiting; one write at most is outstanding; freed only what was written; an idle queue is empty |
| WriteQueue.FreedOnce | include/eixx/connect/transport_otp_connection.hxx:190-198 | no buffer is freed twice, nor while it is in flight or waiting |
| WriteQueue.AbortedFreesNothing | include/eixx/connect/transport_otp_connection.hxx:165-189 | after an abort nothing is freed any more |
| WriteQueue.AllFreedIffTidy | include/eixx/connect/transport_otp_connection.hxx:165-201 | once no write is outstanding, all accepted buffers are freed iff no write failed while live, nothing was held at the stop, and nothing was written after it |
| WriteQueue.FailedWriteLeaks | include/eixx/connect/transport_otp_connection.hxx:174-189 | a run that leaks |
| WriteQueue.Drains | include/eixx/connect/transport_otp_connection.hxx:190-201 | without new writes two successful completions at most free everything |
| WriteQueue.Connection.DoWrite | include/eixx/connect/transport_otp_connection.hpp:215-218 | the object takes the step of a write |
| WriteQueue.Connection.DoWriteInternal | include/eixx/connect/transport_otp_connection.hpp:220-253 | hands over the waiting queue iff none is being written and it is not empty |
| WriteQueue.Connection.HandleWrite | include/eixx/connect/transport_otp_connection.hxx:165-201 | the completion handler in its three branches |
| WriteQueue.Connection.FreeWritten | include/eixx/connect/transport_otp_connection.hxx:190-198 | the loop frees the in-flight queue in order |
| AtomTable.IndexEqualityIsNameEquality | include/eixx/marshal/atom.hpp:203-203 | for any two lookups of any interleaving: equal indices iff equal names (for names with NUL bytes, iff equal up to the first NUL) |
| AtomTable.GetUndoesLookup | include/eixx/util/atom_table.hpp:113-168 | `get(lookup(s)) == s` in every run on NUL-free names |
| AtomTable.GetUndoesLookupIff | include/eixx/util/atom_table.hpp:113-168 | in every run at all `get(lookup(s)) == s` iff `s` itself is in the table iff no other name with its C string is |
| AtomTable.NoNameTwice | include/eixx/util/atom_table.hpp:147-168 | in no state that an interleaving reaches do two indices stand for the same name, nor for names with the same C string (but for the empty name) |
| AtomTable.IndicesAreStable | include/eixx/util/atom_table.hpp:147-168 | the atoms only grow at the end, so an index never changes its meaning |
| AtomTable.StepKeeps | include/eixx/util/atom_table.hpp:147-168 | probe, lock, re-probe, append, index and release keep the invariant, whoever steps in between |
| AtomTable.FindIsScan | include/eixx/util/atom_table.hpp:71-76 | for any hash function the bucket search finds what a scan of all names finds |
| AtomTable.NulHidesName | include/eixx/util/atom_table.hpp:126-138 | with a NUL in a name, `get(lookup(s))` can be another name |
| AtomTable.LookupAdds | include/eixx/util/atom_table.hpp:147-168 | an undisturbed lookup of a new name appends it and returns its index |
| AtomTable.AtomTable.FindValue | include/eixx/util/atom_table.hpp:71-76 | the bucket loop returns the first entry with the key, or 0 |
| AtomTable.AtomTable.TryLookup | include/eixx/util/atom_table.hpp:126-138 | found iff a scan finds it; empty names are 0 and too long names are refused |
| AtomTable.AtomTable.Lookup | include/eixx/util/atom_table.hpp:147-168 | finds or appends; the errors are exactly a name too long and a full table; `get` gives the name back iff no other name with its C string was there before the call |
| PidCounter.NumbersAreInRange | include/eixx/connect/basic_otp_node.hxx:98-118 | under every interleaving the counter stays below 28 bits plus the threads about to reset it, and numbers are in 1..0x0ffffffe |
| PidCounter.NumbersSpreadIffOrderly | include/eixx/connect/basic_otp_node.hxx:98-118 | after any run and one more increment, any 0x0ffffffe consecutive numbers are distinct iff every reset found the counter used up |
| PidCounter.OrderlyRunsCount | include/eixx/connect/basic_otp_node.hxx:98-118 | if every reset does, the threads together get the numbers of a single thread |
| PidCounter.AloneRunsCount | include/eixx/connect/basic_otp_node.hxx:98-118 | if no two threads are about to reset at once, the same holds |
| PidCounter.OverlapRepeats | include/eixx/connect/basic_otp_node.hxx:104-114 | whenever two threads are about to reset, four more steps issue 1 twice in a row |
| PidCounter.DistinctBeforeReset | include/eixx/connect/basic_otp_node.hxx:98-118 | all numbers before the first reset are distinct |
| PidCounter.NumbersCanRepeat | include/eixx/connect/basic_otp_node.hxx:104-114 | there is a run that issues a number twice within 0x0ffffffe |
| PidCounter.ConsecutiveNumbersDiffer | include/eixx/connect/basic_otp_node.hxx:98-118 | in a sequential run any 0x0ffffffe consecutive numbers are distinct |
| PidCounter.NumberCycles | include/eixx/connect/basic_otp_node.hxx:98-118 | the closed form of the sequence |
| PidCounter.AloneIssues | include/eixx/connect/basic_otp_node.hxx:98-118 | a thread that is not disturbed takes the sequential step |
| PidCounter.Node.CreatePid | include/eixx/connect/basic_otp_node.hxx:98-118 | the retry loop issues the next number of the sequence |
| Registry.IndexesAgreeIffCareful | include/eixx/connect/basic_otp_mailbox_registry.hxx:51-152 | from an empty registry, live mailboxes are found by pid and name and closed ones by neither at all times iff no closed mailbox is registered |
| Registry.FoundByPidIffLive | include/eixx/connect/basic_otp_mailbox_registry.hxx:140-152 | in every run a mailbox is found under its own pid iff it is live, and under a name only if it carries it |
| Registry.CreatedIsFound | include/eixx/connect/basic_otp_mailbox_registry.hxx:51-90 | the mailbox returned is found by its pid and name, and all others as before |
| Registry.RegisteredIsFound | include/eixx/connect/basic_otp_mailbox_registry.hxx:109-122 | a registered mailbox is found by that name iff it had it, or both were unused; all others are found as before |
| Registry.ClosedIsGone | include/eixx/connect/basic_otp_mailbox_registry.hxx:140-152 | a closed mailbox is found by nothing and all others as before |
| Registry.ClearedIsEmpty | include/eixx/connect/basic_otp_mailbox_registry.hxx:93-107 | after `clear` both indexes are empty and every mailbox is closed; those that were live lose their names |
| Registry.ClearEndsAll | include/eixx/connect/basic_otp_mailbox_registry.hxx:93-107 | the same wherever a run clears the registry |
| Registry.RefusalIs | include/eixx/connect/basic_otp_mailbox_registry.hxx:109-122 | which refusal a registration meets |
| Registry.StepKeeps | include/eixx/connect/basic_otp_mailbox_registry.hxx:51-152 | every operation keeps the invariant; the name index stays complete iff the operation does not register a closed mailbox |
| Registry.ClosedMailboxCanBeFound | include/eixx/connect/basic_otp_mailbox_registry.hxx:109-122 | a closed mailbox can be registered and found |
| RegistryObjects.MailboxRegistry.CreateMailbox | include/eixx/connect/basic_otp_mailbox_registry.hxx:51-90 | returns the mailbox of that name or a new one in both indexes, whatever pids were issued elsewhere |
| RegistryObjects.MailboxRegistry.Add | include/eixx/connect/basic_otp_mailbox_registry.hxx:109-122 | its three refusals, and the registration otherwise |
| RegistryObjects.MailboxRegistry.CloseMailbox | include/eixx/connect/basic_otp_mailbox.hxx:39-48 | removes the mailbox from both indexes and takes its name away |
| RegistryObjects.MailboxRegistry.ClearAll | include/eixx/connect/basic_otp_mailbox_registry.hxx:93-107 | empties both indexes and closes every mailbox |
| RegistryObjects.MailboxRegistry.GetByName | include/eixx/connect/basic_otp_mailbox_registry.hxx:177-187 | finds a mailbox that carries the name, or nothing |
| RegistryObjects.MailboxRegistry.GetByPid | include/eixx/connect/basic_otp_mailbox_registry.hxx:195-204 | finds a live mailbox with that pid, or nothing |
| AsyncQueue.DeliveredInOrder | include/eixx/util/async_queue.hpp:71-87 | pushed = delivered to handlers, then still queued: each value at most once and in order |
| AsyncQueue.InvocationsAreBounded | include/eixx/util/async_queue.hpp:71-103 | an invocation makes at most a batch of data calls, or exactly one timeout call after a pop that failed |
| AsyncQueue.SchedulingIsBounded | include/eixx/util/async_queue.hpp:88-117 | finitely many pushes and a finite repeat count bound the invocations; the timer is rearmed less often than the count says; an infinite count stays infinite |
| AsyncQueue.TimeoutsRunOut | include/eixx/util/async_queue.hpp:100-117 | in every run without pushes in which the handler goes on to the end, a repeat count of n on an empty queue means exactly n timeout calls and n - 1 rearmings |
| AsyncQueue.TimeoutsEnd | include/eixx/util/async_queue.hpp:100-117 | there is such a run |
| AsyncQueue.ConsumerMovesOn | include/eixx/util/async_queue.hpp:71-117 | a consumer that is not over can always take its next step |
| AsyncQueueLaws.EmptyQueueTimesOut | include/eixx/util/async_queue.hpp:88-222 | after `async_dequeue` with a count of n on an empty queue, every run without pushes in which the handler goes on and that ends makes n timeout calls and n - 1 rearmings; one call if the timer does not repeat, none for n = 0, and no such run ends for a negative n or the largest one |
| AsyncQueueLaws.WaitingValueComesFirst | include/eixx/util/async_queue.hpp:181-222 | with one value waiting it is delivered at once and n - 1 calls follow, or none if the handler declines |
| AsyncQueueLaws.EmptyQueueEnds | include/eixx/util/async_queue.hpp:88-222 | there is a run that ends |
| AsyncQueueLaws.CountIsExact | include/eixx/util/async_queue.hpp:64-87 | in every run what is left of a finite count is the count less every value popped and every rearming, down to zero |
| AsyncQueueLaws.FinishIs | include/eixx/util/async_queue.hpp:88-117 | posted again iff the batch was full and values are left; otherwise rearmed iff the timer repeats, two calls are left and the handler goes on |
| AsyncQueue.Queue.ProcessQueue | include/eixx/util/async_queue.hpp:71-117 | the batch loop is a run of the machine, whatever is pushed meanwhile, and schedules what the machine says |
| AsyncQueue.Queue.Leave | include/eixx/util/async_queue.hpp:88-117 | what follows the loop: post, timeout call, rearm or stop |
| AsyncQueue.Queue.AsyncDequeue | include/eixx/util/async_queue.hpp:181-222 | the synchronous first value; true iff the handler declined it or nothing is left of the count; otherwise the schedule has exactly what is left, or no end for a negative count, and repeats iff a wait time is set |
| AsyncQueue.Queue.Enqueue | include/eixx/util/async_queue.hpp:154-164 | adds at the end |

## Left out

- Doubles, ports, maps and traces, in terms, texts and on the wire: rounding and NaN, the incomplete port encoding and the map order have no law to prove.
- `operator<` of terms: for tuples, lists and pids it is not a strict weak order.
- `eterm::apply`: it returns an undefined term when there is nothing to substitute; `subst` is modelled instead.
- Terms.EqualIsIdentity: references are compared by content; the source compares their whole storage with `memcmp`, two padding bytes that no constructor writes included.
- Matching.MatchIsLeastInstance: strings hold no NUL byte here, because `operator==` on strings compares with `strcmp` and stops there.
- Binding.Varbind.Find: the map compares names with `strcmp`; names are those that the atom table stores, no two of which share a C string (`AtomTable.NoNameTwice`), except that the empty name and one that starts with a NUL byte are one key in the source.
- The module-function form of `eformat`.
- TextCursor.Cursor.PDigit: a number with a decimal point fails here, where the source goes on to `strtod`.
- TextCursor.Cursor.EFormat: directives (`~a`, `~w` and so on) take their terms from varargs, so the model fails on `~`; `$` at the very end of the text reads behind its terminator in the source and fails here.
- TextCursor.Cursor.FastAtoiLoop: overflow of `int` is undefined in C++ and wraps around here.
- CodecBuffer.ReadTerm: floats, ports and maps are refused here; reading behind the end of a buffer is an error here, where the source checks the bound by assertion only, after the fact.
- Messages.ReceiveUndoesSend: messages with a trace token, and `set_link` and `set_unlink`, which pass a bit flag where a code is expected, are not built.
- The inbound read loop: its count of outstanding bytes is unsigned and tested with `<= 0`, so independence of how input is cut into chunks is not what it computes.
- Reference counts of blobs: terms are values everywhere except in the list storage, where the last reference is released.
- ListCells.CellList.Release: the order in which cells are visited is modelled, the allocator is not.
- Handshake.Step: a status with one byte too many fails at once here; in the source that can wait until the next header has been read.
- HandshakeSafety.ConnectedIsAuthenticated: handshake input arrives as whole messages and not at buffer offsets; the local challenge is a parameter, MD5 is an arbitrary function, and the node name is set, as `connect` asserts.
- An explicit stop during the handshake, and the message texts of its failures.
- Sockets, timers, the resolver, epmd's own protocol, logging and thread primitives: their completions are inputs of the state machines.
- AtomTable.StepKeeps: one probe of the hash index is one step; a data race inside it is not modelled.
- Registry.IndexesAgreeIffCareful: pids are issued one after another and fewer than 0x0fffffff of them in all; when pids repeat after a wrap is shown in `PidCounter` only.
- The mailbox free list, which nothing fills, `erase` by name, which refuses every name that could be registered, and links and monitors of mailboxes.
- AsyncQueue.DeliveredInOrder: one consumer; `dequeue` and `reset` by another reader take values away and are not modelled.
- Node connections, the RPC server, the Unix-socket transport and allocators: plumbing.
