# Verified model of the Unitree SDK's core algorithms

The examples, drivers and tools of this SDK mostly wire closed libraries together, but a few small
cores carry the weight: the checksum that every low-level controller trusts, the queues between
threads, the binding generator's algorithms, the WAV reader and writer, the control state machines,
and the JSON container conversions. This project models these cores in Dafny and proves what they
are for, over every input, every run and every interleaving.

`dafny verify dfyconfig.toml` verifies the whole project.

| file | models |
|---|---|
| gf2.dfy | polynomials over GF(2), long division, and the shift register that performs it |
| crc.dfy | the three forms of the checksum loop, on 32-bit words as bit sequences |
| crc_detection.dfy | what the checksum detects, and the message buffer behind it |
| divisibility.dfy | factors, greatest common divisors and the primes of 2^32 - 1 |
| crc_start.dfy | the terms of the generator, and what the initial register of all ones is for |
| powers.dfy | powers of x modulo a polynomial over GF(2), and what two wrong bits do to the register |
| word_product.dfy | products modulo the generator on machine words, equal to those of the polynomials |
| crc_period.dfy | the period of the checksum's generator, and which two-bit errors it detects |
| dependency_order.dfy | the generator's depth-first class order |
| normalize_type.dfy | the normalisation of type spellings, substitution by substitution |
| normal_form.dfy | what normalising keeps and takes off, character by character |
| type_text.dfy | splitting template arguments and recognising supported types |
| type_spellings.dfy | the grammar of supported types, character by character |
| worker.dfy | the worker queue of the G1 node: push, worker thread, destructor |
| block_queue.dfy | the bounded evicting queue, as a monitor |
| listener.dfy | the DDS reader listener that fills and drains that queue |
| wav_format.dfy | little-endian integers and the layout of a WAVE file |
| wav.dfy | the reader as a function on bytes, and the layouts it accepts |
| wav_io.dfy | the reader on a stream, the writer, and their round trip |
| wav_header.dfy | the numbers and letters in the header of a file |
| stripper.dfy | the comment and literal stripper |
| namespaces.dfy | the brace-counting namespace tracker |
| recorded_names.dfy | the namespace text that the tracker records |
| state_machine.dfy | the damping / stand / control machine and its buttons |
| stand_trajectory.dfy | the staged stand-up trajectories of go2 and b2 |
| g1_controller.dfy | the G1 freeze / stand / policy controller and its joint map |
| g1_joints.dfy | the joints of the G1 by name |
| jsonize.dfy | ToAny / FromAny on nested containers |
| wrappers.dfy | optional values |

## How to read the model

* Where the code changes things step by step, so does the model: methods with loops and classes with
  fields, each proved equal to a function of the old state. The properties are then proved about
  those functions.
* Concurrent code is a state machine over its atomic steps. The methods of a class are the locked
  sections; a `Run` is any interleaving. A condition variable is an abstract monitor in which a
  notify wakes a sleeper if there is one, and a sleeper may also wake by itself.
* Floating point is exact reals, with ticks counted as whole numbers where the code adds up a
  constant; step counts are those of exact arithmetic.
* The checksum's parameters are those of section 3.2.9 of IEEE 802.3 (the polynomial), without its
  reflection and final complement, as in the CRC decoder model of Annex A of ISO/IEC 13818-1. A
  message is a sequence of 32-bit words whose last word is the checksum.
* `WavFormat.Layout` follows the chunk structure of chapter 2 and the WAVE form of chapter 3 of the
  *Multimedia Programming Interface and Data Specifications 1.0*, as far as the reader does. Chunks
  have no pad byte there, because the reader does not expect one.
* The lines that the namespace tracker reads are given as events: namespace headers, aliases and
  braces in the order in which they stand on the line. What the scanner's pattern finds in a line is
  a function of these events, and the blocks that are really open follow from the events of the lines
  outside preprocessor directives alone.

Where the code and its comments differ, the model follows the code. The policy targets of the G1 are
clipped to 1.5 rad around the default, not to the 0.5 rad its comment names
(deploy/g1_motion_controller.cpp:435-437). Its gravity vector has z = +1 when upright, not about -1
(deploy/g1_motion_controller.cpp:282-286, `G1Controller.GravityIsObserved`).

Some promises hold only under a condition, which is proved to be exact, with the inputs that fail:

* the stand-up moves a joint by at most the increments of two adjacent segments per tick unless an
  inner stage is a single tick (`StandTrajectory.MovesByTwoRatesIff`, with the case in
  `StandTrajectory.SingleTickJumps`);
* the namespace tracker keeps the right stack exactly on tracked lines (`Namespaces.LineAgreesIff`,
  `Namespaces.AlwaysAgreesIff`). It loses track on a second header on a line, an inline or attributed
  header, an alias, a header of several names with fewer braces than names, a brace in a preprocessor
  line, a line of a macro that starts like a header, and a line that closes a named block and reaches
  its depth again (the lemmas `Namespaces.SecondHeaderIsMissed` to `Namespaces.ReplacedNameIsKept`).
  A macro with such a line is in thirdparty/include/ddscxx/dds/topic/TopicTraits.hpp:86-90;
* what it then records is exactly the text's declarations unless a line of a macro starts like one
  (`Namespaces.DeclarationsAreInTheirNamespaces`, `Namespaces.MacroDeclarationIsRecorded`), as
  include/unitree/common/exception.hpp:160 does;
* the listener's destructor ends its consumer unless that was never given a handler, or the interrupt
  falls between its test of `mQuit` and its wait (`Listener.ShutdownOutcome`, with the two runs in
  `Listener.ShutdownWithoutHandler` and `Listener.InterruptTooEarly`);
* the WAV reader's chunk walk ends unless it meets a header twice (`Wav.EndlessIff`), and what it
  accepts is a layout unless it has followed a negative size (`Wav.ReadIffLayout`, `Wav.BackwardIsRead`);
* a channel count above 127 does not survive being written and read (`WavIo.ChannelCountSurvives`).

## Model

| member | source | states |
|---|---|---|
| Crc.Crc32DataShifting | deploy/g1_motion_controller.cpp:113-130 | the data-shifting loop computes the register after the words' bits, most significant bit first, from the register of the next row |
| CrcStart.InitialRegister | deploy/g1_motion_controller.cpp:114-114 | the register starts as all ones: every bit of the checksum of nothing is set |
| CrcStart.GeneratorTerms | deploy/g1_motion_controller.cpp:115-115 | the generator is the sum of x^e for e = 32, 26, 23, 22, 16, 12, 11, 10, 8, 7, 5, 4, 2, 1 and 0, and no other power |
| CrcStart.MessageOrder | deploy/g1_motion_controller.cpp:116-127 | bit 32 i + j of a message is bit j of word i, the most significant bit first |
| CrcStart.ChecksumOfZero | deploy/g1_motion_controller.cpp:113-130 | the checksum of a single zero word is 0xC704DD7B |
| CrcStart.LeadingZeros | deploy/g1_motion_controller.cpp:113-130 | zero words in front of any message go unnoticed if and only if their number is a multiple of 2^32 - 1, since all ones are a power of x |
| CrcStart.ZerosRejected | deploy/g1_motion_controller.cpp:232-236 | a message of nothing but zeros is rejected, whatever its length |
| Crc.Crc32MovingMask | example/state_machine/conversion.hpp:33-59 | the moving-mask loop computes the same value for every word sequence |
| Crc.Crc32Conditional | example/h2/low_level/h2_dual_arm_example.cpp:51-62 | the conditional-expression loop computes the same value for every word sequence |
| CrcDetection.Crc32IsRemainder | deploy/g1_motion_controller.cpp:113-130 | a word is the checksum if and only if it is the remainder of R x^(32 len) + M(x) x^32 modulo the generator over GF(2), where R is the initial register |
| Gf2.RunIsRemainder | deploy/g1_motion_controller.cpp:119-127 | for any polynomial, initial register and input, the shift register holds the unique remainder of long division |
| Gf2.DivisionUnique | deploy/g1_motion_controller.cpp:115-127 | quotient and remainder by a monic polynomial over GF(2) are unique, so "the remainder" is well defined |
| CrcDetection.Crc32Affine | deploy/g1_motion_controller.cpp:113-130 | over equal lengths the checksum of a sum of three messages is the sum of their checksums |
| CrcDetection.WordUpdateIsPermutation | deploy/g1_motion_controller.cpp:118-127 | for a fixed data word the register update is one-to-one and onto on the register states |
| CrcDetection.FeedEmpties | deploy/g1_motion_controller.cpp:118-127 | one more word leaves the register at zero exactly if it is the checksum so far |
| CrcDetection.AcceptsIffEmptied | deploy/g1_motion_controller.cpp:232-236 | the receiver's comparison accepts exactly the messages whose words, checksum included, empty the register |
| CrcDetection.UndetectedErrors | deploy/g1_motion_controller.cpp:232-236 | damage to an accepted message goes unnoticed if and only if, as a polynomial, it is a multiple of the generator |
| CrcDetection.BurstErrors | deploy/g1_motion_controller.cpp:232-236 | damage inside any window of up to 33 consecutive bits, also across the payload/checksum boundary, is accepted only if there is none or it is the generator itself |
| CrcDetection.ShortBurstsRejected | deploy/g1_motion_controller.cpp:232-236 | damage inside any window of up to 32 consecutive bits is always rejected, for messages of any length |
| CrcPeriod.PeriodOfCrc | deploy/g1_motion_controller.cpp:113-130 | x^k leaves remainder 1 modulo the generator if and only if k is a multiple of 2^32 - 1, the longest period a 32-bit register can have |
| CrcPeriod.TwoBitErrors | deploy/g1_motion_controller.cpp:232-236 | two flipped bits anywhere in an accepted message, its checksum included, go unnoticed if and only if their distance is a multiple of 2^32 - 1 |
| CrcPeriod.TwoBitErrorsRejected | deploy/g1_motion_controller.cpp:232-236 | so two flipped bits are always rejected in messages of up to 2^27 - 1 words |
| Powers.TwoBitsCancelIff | deploy/g1_motion_controller.cpp:113-130 | for any polynomial with a constant term, of any width: two bits k apart, wherever they stand, leave the register at zero if and only if x^k leaves remainder 1 |
| Gf2.BurstDetected | deploy/g1_motion_controller.cpp:113-130 | the burst bound for any polynomial with a constant term, of any width and at any place |
| Gf2.RunUnrun | deploy/g1_motion_controller.cpp:119-127 | running the register backwards undoes it, in both directions, when the polynomial has a constant term |
| CrcDetection.StateBuffer.constructor | example/h2/low_level/h2_dual_arm_example.cpp:78-82 | a new buffer is empty |
| CrcDetection.StateBuffer.Set | example/h2/low_level/h2_dual_arm_example.cpp:66-70 | the buffer holds the message and is ready |
| CrcDetection.StateBuffer.Get | example/h2/low_level/h2_dual_arm_example.cpp:71-76 | the contents, or nothing before the first message |
| CrcDetection.StateBuffer.OnMessage | example/h2/low_level/h2_dual_arm_example.cpp:134-137 | a message replaces the contents exactly if its last word is the checksum of the others |
| CrcDetection.BufferHoldsLastIntact | example/h2/low_level/h2_dual_arm_example.cpp:132-137 | over any sequence of valid messages, each possibly damaged within a 32-bit window, the buffer holds the last one that arrived intact |
| DependencyOrder.BuildGraph | unitree_sdk2_bindings/generator/generate_bindings.py:162-173 | the dictionaries map each name to the last class listed under it, and to the sorted known classes its types mention |
| DependencyOrder.MentionsIff | unitree_sdk2_bindings/generator/generate_bindings.py:167-173 | a class depends on another if and only if that is known, listed and not itself, and its name stands in one of the class's types, anywhere in it, for every name without blanks |
| DependencyOrder.ReachesIff | unitree_sdk2_bindings/generator/generate_bindings.py:179-191 | a name reaches itself and whatever one of its dependencies reaches |
| DependencyOrder.MentionsAreSorted | unitree_sdk2_bindings/generator/generate_bindings.py:171-173 | the sorted dependencies are exactly the known, listed names other than its own that occur in the class's type text |
| DependencyOrder.MentionsAscend | unitree_sdk2_bindings/generator/generate_bindings.py:163-188 | they are visited in the order of the positions at which their names are listed last |
| DependencyOrder.Search.constructor | unitree_sdk2_bindings/generator/generate_bindings.py:175-177 | the search starts with nothing visiting, visited or emitted |
| DependencyOrder.Search.Visit | unitree_sdk2_bindings/generator/generate_bindings.py:179-191 | the recursive closure, in place, is the depth-first exploration; it ends on every graph because names neither visiting nor visited get fewer |
| DependencyOrder.Order | unitree_sdk2_bindings/generator/generate_bindings.py:153-195 | the function emits the classes in exploration order, each the last one listed under its name |
| DependencyOrder.ExploreKeepsInv | unitree_sdk2_bindings/generator/generate_bindings.py:179-191 | each call keeps: no name twice, emitted means visited, every dependency of an emitted name is before it or can reach back to it; and the visited name is emitted or on the current path |
| DependencyOrder.OrderIsDependencyFirst | unitree_sdk2_bindings/generator/generate_bindings.py:153-195 | on any graph, cyclic or not, the listed names come out once each, and a dependency that cannot reach back to its dependant comes before it; on acyclic graphs all dependencies come first |
| DependencyOrder.OrderIsPermutation | unitree_sdk2_bindings/generator/generate_bindings.py:193-195 | for distinct class names the result is a permutation of the input |
| DependencyOrder.OrderIsStable | unitree_sdk2_bindings/generator/generate_bindings.py:156-161 | an input already in dependency order is kept as it is |
| TypeText.SplitTemplateArguments | unitree_sdk2_bindings/generator/generate_bindings.py:59-72 | the character loop cuts at every comma outside brackets and strips the pieces |
| TypeText.PiecesInvertJoin | unitree_sdk2_bindings/generator/generate_bindings.py:59-72 | a list is the result of cutting a text if and only if its pieces have no comma outside brackets, close their brackets (the last need not) and join to the text |
| TypeText.SplitInvertsJoin | unitree_sdk2_bindings/generator/generate_bindings.py:59-72 | any non-empty list of trimmed, bracket-closed pieces is recovered from its join, whatever white space is put around the pieces |
| NormalizeType.NormalizeInOnePass | unitree_sdk2_bindings/generator/generate_bindings.py:46-56 | on any text the chain of substitutions does what one pass over the trimmed, const-free, unreferenced text does: a blank stays only between characters other than brackets and commas, and one follows each comma |
| NormalizeType.NormalizeIsNormal | unitree_sdk2_bindings/generator/generate_bindings.py:46-56 | any text normalises to normal text: spaced like that, trimmed, and without const at the start of a word |
| NormalForm.NormalizedText | unitree_sdk2_bindings/generator/generate_bindings.py:46-56 | in characters: the result has only single blanks, none at its ends, beside brackets or before commas except behind a comma, one behind each comma, and no word const |
| NormalForm.InkIsKept | unitree_sdk2_bindings/generator/generate_bindings.py:46-56 | a text without the word const, a leading colon and a closing reference mark keeps all its characters but white space, in order |
| NormalForm.ConstIsOff | unitree_sdk2_bindings/generator/generate_bindings.py:49-49 | the word const and the white space behind it make no difference, wherever a word can begin, unless nothing follows |
| NormalForm.ReferenceIsOff | unitree_sdk2_bindings/generator/generate_bindings.py:50-50 | & or && behind a text that does not end in one makes no difference |
| NormalForm.ColonIsOff | unitree_sdk2_bindings/generator/generate_bindings.py:55-55 | a leading colon makes no difference |
| NormalizeType.NormalizeNormal | unitree_sdk2_bindings/generator/generate_bindings.py:46-56 | normalising is not idempotent; normal text again loses exactly one reference mark with its blank, and leading colons with theirs |
| NormalizeType.MarksOfNormal | unitree_sdk2_bindings/generator/generate_bindings.py:46-56 | normal text is its normalised form with colons before it and a reference mark behind it, which the lemma gives |
| NormalizeType.MarksAreOff | unitree_sdk2_bindings/generator/generate_bindings.py:46-56 | conversely such marks around a text with none of its own are exactly what normalising takes off |
| TypeText.IsSupportedType | unitree_sdk2_bindings/generator/generate_bindings.py:75-89 | the recursive method decides support of any text, normalising at every level; it ends because a normalised argument is shorter than the normalised text |
| TypeText.PrintedIsSupported | unitree_sdk2_bindings/generator/generate_bindings.py:75-89 | every text that normalises to a printed type of the grammar scalar, string, known class, array with digits, vector is accepted; container elements may carry leading colons and a reference mark |
| TypeText.SupportedIsPrinted | unitree_sdk2_bindings/generator/generate_bindings.py:75-89 | every accepted text, of any form, normalises to a printed type, which the lemma constructs |
| TypeText.SupportedIffPrinted | unitree_sdk2_bindings/generator/generate_bindings.py:75-89 | any text is accepted if and only if it normalises to the printed form of a type of the grammar, for known classes whose names nest their brackets and carry no marks |
| TypeSpellings.ScalarSpellings | unitree_sdk2_bindings/generator/generate_bindings.py:11-34 | the built-in types are these twenty-two spellings |
| TypeSpellings.NameSpelling | unitree_sdk2_bindings/generator/generate_bindings.py:77-80 | of the names, those, std::string and the known classes are types, printed as they are |
| TypeSpellings.ArraySpelling | unitree_sdk2_bindings/generator/generate_bindings.py:81-88 | std::array< with a type between marks, a comma, a blank and a decimal number |
| TypeSpellings.VectorSpelling | unitree_sdk2_bindings/generator/generate_bindings.py:81-89 | std::vector< with a type between marks and nothing else |
| TypeText.QualifiedElementIsSupported | unitree_sdk2_bindings/generator/generate_bindings.py:75-89 | a vector of a known class named from the global namespace, std::vector<::a>, is accepted |
| Worker.Worker.constructor | source/g1_node/main.cpp:71-85 | a new worker is in the initial state of the protocol |
| Worker.Worker.Push | source/g1_node/main.cpp:94-100 | the locked part of push appends the item; a notify is then due |
| Worker.Worker.CheckQueue | source/g1_node/main.cpp:75-81 | one pass under the lock sleeps, returns or takes the front item, as the protocol's step does |
| Worker.Worker.SetStop | source/g1_node/main.cpp:86-90 | the locked part of the destructor sets stop; a notify and the join are then due |
| Worker.NextKeepsInv | source/g1_node/main.cpp:71-100 | every step of every thread keeps: pushed = handled + in hand + queued, no lost wakeup, the worker returns only when all earlier pushes are handled |
| Worker.EveryRun | source/g1_node/main.cpp:71-100 | in every interleaving the handled items are a prefix of the pushed ones, a sleeping worker with work or a stop has a notify due, and once the join has returned everything pushed before destruction began was handled |
| Worker.PushesInOrder | source/g1_node/main.cpp:94-100 | the pushed items of a run are those of its Push steps, in order |
| Worker.HandledBeforeJoin | source/g1_node/main.cpp:71-100 | in terms of the steps alone: once the destructor has joined, the items of all pushes before its first step have been handled first, in the order of those pushes |
| Worker.OneNotifyPerPush | source/g1_node/main.cpp:94-100 | each push makes one notify: those owed are the pushes less the notifies so far |
| Worker.RunSnoc | source/g1_node/main.cpp:71-100 | every step that is possible after a run may follow it, so no interleaving is left out |
| Worker.NotStuck | source/g1_node/main.cpp:86-93 | after stop is set some thread can move until the join has returned |
| Worker.DestructorReturns | source/g1_node/main.cpp:86-93 | after stop is set, without new pushes, every schedule is finite, with a computed bound, and can only end with the destructor joined and every earlier push handled |
| BlockQueueModel.BlockQueue.constructor | include/unitree/common/block_queue.hpp:15-22 | an empty queue; size 0 stands for the maximum length |
| BlockQueueModel.BlockQueue.Put | include/unitree/common/block_queue.hpp:24-58 | true exactly when the item was accepted and nothing evicted; a full queue refuses it unchanged, or with replace evicts the front; mCurSize stays the list's length |
| BlockQueueModel.BlockQueue.PopFront | include/unitree/common/block_queue.hpp:117-122 | removes and returns the front item |
| BlockQueueModel.BlockQueue.GetOrSleep | include/unitree/common/block_queue.hpp:102-106 | Get up to its wait: the front item, or the caller is asleep |
| BlockQueueModel.BlockQueue.GetAfterWait | include/unitree/common/block_queue.hpp:106-122 | Get after its single wait: the front item if it was notified and there still is one, otherwise nothing |
| BlockQueueModel.BlockQueue.InterruptWaiters | include/unitree/common/block_queue.hpp:88-99 | wakes one or all sleepers and leaves the items alone |
| BlockQueueModel.NextKeepsInv | include/unitree/common/block_queue.hpp:24-123 | every step, time-outs and unnotified wake-ups included, keeps: at most mMaxSize items with mMaxSize at least 1, accepted = got + evicted + present as multisets, no lost wakeup |
| BlockQueueModel.EveryRun | include/unitree/common/block_queue.hpp:24-123 | the same over every interleaving of any threads and any mix of the flags |
| BlockQueueModel.RunSnoc | include/unitree/common/block_queue.hpp:24-123 | every step that is possible after a run may follow it |
| BlockQueueModel.FirstInFirstOut | include/unitree/common/block_queue.hpp:24-123 | without putfront, items leave in the order of their acceptance and the list is what was accepted last |
| Listener.ReaderListener.constructor | include/unitree/common/dds/dds_entity.hpp:252-260 | a positive length makes a queue of that bound; otherwise there is none |
| Listener.ReaderListener.OnSample | include/unitree/common/dds/dds_entity.hpp:318-336 | a valid sample goes to the queue, evicting the earliest with a warning when full, or to the handler; an invalid one is dropped |
| Listener.ReaderListener.OnDataAvailable | include/unitree/common/dds/dds_entity.hpp:307-338 | a batch adds exactly its valid samples, in order, and takes none out |
| Listener.ValidDataIs | include/unitree/common/dds/dds_entity.hpp:315-336 | the valid samples of a batch are those whose flag is set, in order |
| Listener.ReceivedInOrder | include/unitree/common/dds/dds_entity.hpp:307-338 | in every run the received samples are exactly the valid ones among its sample events, in order |
| Listener.WaitCanEnd | include/unitree/common/dds/dds_entity.hpp:262-286 | a waiting consumer can go on if it was notified, and otherwise by a time-out, after which it tests mQuit again, or by waking itself |
| Listener.RunSnoc | include/unitree/common/dds/dds_entity.hpp:252-338 | every event that is possible after a run may follow it |
| Listener.AfterKeepsInv | include/unitree/common/dds/dds_entity.hpp:252-338 | every event, time-outs and unnotified wake-ups included, keeps: accepted = received, taken = delivered + in flight, evictions = warnings, at most the one consumer waits |
| Listener.EveryRunOfListener | include/unitree/common/dds/dds_entity.hpp:252-338 | in every run the queue holds exactly the last k <= n valid samples in order, the delivered ones are an order-preserving subsequence of the earlier ones, and received = delivered + in flight + evicted (one warning each) + queued |
| Listener.ShutdownOutcome | include/unitree/common/dds/dds_entity.hpp:232-286 | after the destructor's interrupt the consumer comes to rest within four steps of its own, and has then finished if and only if it had a handler and did not stand between its test of mQuit and its Get on an empty queue |
| Listener.WithoutHandlerNothingFinishes | include/unitree/common/dds/dds_entity.hpp:262-286 | a consumer without a handler never finishes in any run that gives it none |
| Listener.ShutdownWithoutHandler | include/unitree/common/dds/dds_entity.hpp:232-273 | the run from the start to the first failing case: a new listener destroyed before it has a handler |
| Listener.InterruptTooEarly | include/unitree/common/dds/dds_entity.hpp:232-286 | the run to the second: the interrupt comes between the test of mQuit and the wait |
| WavIo.InputStream.constructor | example/g1/audio/wav.hpp:184-186 | a binary stream at the start of the file |
| WavIo.InputStream.Read | example/g1/audio/wav.hpp:33-33 | reads the next bytes; at the end of the file it stores what is left in front of the old bytes and fails the stream, and a failed stream changes nothing |
| WavIo.InputStream.Seek | example/g1/audio/wav.hpp:7-7 | a relative seek, also backwards and beyond the end; before the start it fails and stays |
| WavIo.SeekToDataChunk | example/g1/audio/wav.hpp:5-11 | where the walk ends, it finds the data chunk it meets first or fails the stream, for sizes of any sign |
| WavIo.ReadStart | example/g1/audio/wav.hpp:33-69 | checks RIFF and WAVE and skips one JUNK chunk, backwards if its size is negative |
| WavIo.ReadFmt | example/g1/audio/wav.hpp:71-145 | accepts exactly a PCM format chunk of 16 bytes, or 18 with extra size 0, with matching byte rate and block align at 16 bits |
| WavIo.ReadSamples | example/g1/audio/wav.hpp:161-178 | the data comes back byte for byte through the 16-bit sample buffer; a read that is short, or of -1 bytes, is rejected, a size below -1 throws, and an odd size whose bytes are all there overruns the buffer |
| WavIo.ReadWaveImpl | example/g1/audio/wav.hpp:30-179 | the reader's result is the parse of the file's bytes, including every rejection, on every file on which the chunk walk ends |
| WavIo.CopySamples | example/g1/audio/wav.hpp:209-212 | the sample copy keeps the little-endian bytes |
| WavIo.WriteWave | example/g1/audio/wav.hpp:189-230 | the file written is the bytes of the plainest layout with these samples; false exactly if the file cannot be created or written |
| Wav.LayoutIsRead | example/g1/audio/wav.hpp:30-179 | reading any layout gives its rate, channels and data, without meeting a negative size: the JUNK chunk, the format extension and any chunks before the data make no difference |
| Wav.ReadHasLayout | example/g1/audio/wav.hpp:30-179 | every file accepted without a negative chunk size has such a layout, which the lemma constructs |
| Wav.ReadIffLayout | example/g1/audio/wav.hpp:30-179 | a file has a valid layout if and only if the reader succeeds on it and meets no negative chunk size |
| Wav.BackwardIsRead | example/g1/audio/wav.hpp:5-11 | for any rate and channel count a file without a layout that is accepted: its last chunk leads back into the JUNK chunk, where a data chunk stands |
| Wav.EndlessIff | example/g1/audio/wav.hpp:5-11 | the chunk walk never ends if and only if it meets a chunk header twice |
| Wav.SizeMinusEight | example/g1/audio/wav.hpp:5-11 | the simplest such file: a chunk of size -8 before the data |
| Wav.WalkSkips | example/g1/audio/wav.hpp:147-157 | the walk passes over any list of non-data chunks |
| WavIo.WrittenIsRead | example/g1/audio/wav.hpp:189-230 | reading back what was written gives the same rate and exactly the little-endian bytes of the samples, and the channel count as an int8_t |
| WavIo.ChannelCountSurvives | example/g1/audio/wav.hpp:94-97 | the channel count read back is the one written if and only if it is at most 127 |
| WavFormat.Coded | example/g1/audio/wav.hpp:20-33 | an integer stands little-endian at a position if and only if decoding there gives it, for any width and sign |
| WavHeader.SignedNumbers | example/g1/audio/wav.hpp:12-26 | a header field is its bytes, the lowest first, less 2^16 or 2^32 if the highest bit is set |
| WavHeader.Identifiers | example/g1/audio/wav.hpp:33-61 | the five identifiers are the letters RIFF, WAVE, JUNK, fmt with a blank, and data |
| WavHeader.LayoutFields | example/g1/audio/wav.hpp:12-26 | where each field of a layout stands, and the number it holds, for any layout |
| WavHeader.WrittenHeader | example/g1/audio/wav.hpp:189-205 | the written file: 44 bytes of header with these numbers, among them the byte rate 2 rate channels and the sizes, then the samples |
| WavHeader.WrittenSample | example/g1/audio/wav.hpp:207-222 | sample i stands as a signed 16-bit number at 44 + 2 i |
| WavHeader.Conversions | example/g1/audio/wav.hpp:97-97 | conversions to 32 and 8 bits take off a multiple of 2^32 and 2^8 |
| WavHeader.Truncates | example/g1/audio/wav.hpp:111-113 | division by 8 drops the rest toward zero |
| Stripper.StripCommentsAndLiterals | unitree_sdk2_bindings/generator/scan_headers.py:65-125 | the loop over state and index computes the automaton's output |
| Stripper.ReadOne | unitree_sdk2_bindings/generator/scan_headers.py:70-124 | one turn of the loop: what it appends, how far it moves, and the next state |
| Stripper.StripIsProjection | unitree_sdk2_bindings/generator/scan_headers.py:65-125 | for any text: same length, line breaks exactly where they were, every other character kept or a space, no quote and no comment opener left, and stripping again changes nothing |
| Stripper.CleanIsKept | unitree_sdk2_bindings/generator/scan_headers.py:65-125 | text without quotes and comment openers is unchanged |
| Stripper.StripBlanksNonCode | unitree_sdk2_bindings/generator/scan_headers.py:65-125 | stripping a text given as code, comments and literals blanks exactly the comments and literals |
| Stripper.StripAt | unitree_sdk2_bindings/generator/scan_headers.py:65-125 | position by position: a character of code is kept, and one of a comment or literal, delimiters included, is a line break if it was one and a space otherwise |
| Stripper.EveryTextHasStructure | unitree_sdk2_bindings/generator/scan_headers.py:65-125 | every text is such a structure, so the previous row covers every text |
| Namespaces.DiscoverDeclarations | unitree_sdk2_bindings/generator/scan_headers.py:128-170 | the loop over the lines records what the scanner function records, line numbers included |
| Namespaces.ReadSourceLine | unitree_sdk2_bindings/generator/scan_headers.py:153-168 | one turn of the loop: pending names pushed at a brace, depth counted, deeper entries popped |
| Namespaces.PopTo | unitree_sdk2_bindings/generator/scan_headers.py:167-168 | pops while the top entry is deeper than the brace depth |
| Namespaces.DepthsStayOrdered | unitree_sdk2_bindings/generator/scan_headers.py:153-168 | after every line of any text the stack's depths strictly increase and do not exceed the brace depth |
| Namespaces.NamesNeedBraces | unitree_sdk2_bindings/generator/scan_headers.py:154-168 | a line that gives waiting names their brace keeps all of them, and the stack below, if and only if it opens as many more braces than it closes as there are names; with fewer only the first ones. Names found on the line and names waiting from earlier lines are alike |
| Namespaces.LineAgreesIff | unitree_sdk2_bindings/generator/scan_headers.py:153-168 | from a right stack, depth and pending names, any line, a line of a directive or macro included, leads to right ones if and only if it is tracked: what its events do to the open blocks is what its pattern match and its two brace counts take for granted |
| Namespaces.NamelessLineIff | unitree_sdk2_bindings/generator/scan_headers.py:158-168 | a line of plain braces is tracked if and only if it closes no named block and reaches its depth again |
| Namespaces.OpensNamesIff | unitree_sdk2_bindings/generator/scan_headers.py:153-168 | a line whose first event opens a header of any number of names, its own or a waiting one, is tracked if and only if what follows replaces no named block, the new one included, and, with several names, the line ends below the new block |
| Namespaces.DirectiveLineIff | unitree_sdk2_bindings/generator/scan_headers.py:153-168 | a line of a directive, continuation lines of macros included, is tracked if and only if its braces balance and, without braces, the pattern finds no name in it, or, with braces, no name waits for one |
| Namespaces.WaitingHeaderIsTracked | unitree_sdk2_bindings/generator/scan_headers.py:153-156 | a plain header of any number of names whose brace is on a later line is tracked |
| Namespaces.AlwaysAgreesIff | unitree_sdk2_bindings/generator/scan_headers.py:135-168 | over a whole text whose braces match, the stack is that of the really open named blocks after every line if and only if every line is tracked |
| Namespaces.DeclarationsAreInTheirNamespaces | unitree_sdk2_bindings/generator/scan_headers.py:128-170 | then everything recorded is recorded with exactly the named namespace blocks open at its line, and is exactly the declarations of the text if and only if no line of a macro starts like a recorded declaration |
| RecordedNames.WhatIsRecorded | unitree_sdk2_bindings/generator/scan_headers.py:135-151 | so, while every line is tracked, the list holds in the order of the lines one record for each line that starts like a declaration outside the two library namespaces, with its line number, kind and name, and the names of the really open blocks |
| RecordedNames.PiecesOfJoin | unitree_sdk2_bindings/generator/scan_headers.py:136-136 | cutting a recorded namespace at its double colons gives back the names, outermost first |
| RecordedNames.JoinConcat | unitree_sdk2_bindings/generator/scan_headers.py:136-136 | the text of a longer list of names is the two texts with a double colon between |
| RecordedNames.InternalIff | unitree_sdk2_bindings/generator/scan_headers.py:47-47 | a namespace counts as internal if and only if it is nested in dds or in org::eclipse::cyclonedds |
| Namespaces.SimpleTextIsTracked | unitree_sdk2_bindings/generator/scan_headers.py:128-170 | a text whose lines open before they close, with one-name headers first on their line, headers of any number of names waiting for their brace, and directives without braces and matches, meets that condition, so each declaration found is recorded where it stands |
| Namespaces.SecondHeaderIsMissed | unitree_sdk2_bindings/generator/scan_headers.py:153-168 | failing line: namespace a { namespace b { puts only a on the stack |
| Namespaces.UnplainHeaderIsMissed | unitree_sdk2_bindings/generator/scan_headers.py:43-43 | failing line: an inline or attributed header puts nothing on the stack |
| Namespaces.AliasNamesABlock | unitree_sdk2_bindings/generator/scan_headers.py:153-164 | failing line: namespace a = b; gives the name a to the next block, whatever it is |
| Namespaces.NestedHeaderIsCut | unitree_sdk2_bindings/generator/scan_headers.py:153-168 | failing lines: namespace a::b with its one brace keeps only a |
| Namespaces.InlineIsTakenForAName | unitree_sdk2_bindings/generator/scan_headers.py:46-46 | failing line: in namespace a::inline b the word inline waits for a brace in the place of b |
| Namespaces.MacroBraceCloses | unitree_sdk2_bindings/generator/scan_headers.py:158-168 | failing line: a closing brace in a preprocessor line takes the innermost block off |
| Namespaces.MacroHeaderNamesABlock | unitree_sdk2_bindings/generator/scan_headers.py:153-164 | failing lines: a macro's line that starts with namespace a gives the name a to the next block |
| Namespaces.MacroDeclarationIsRecorded | unitree_sdk2_bindings/generator/scan_headers.py:138-151 | failing line: a macro's line that starts like a declaration is recorded as one |
| Namespaces.ReplacedNameIsKept | unitree_sdk2_bindings/generator/scan_headers.py:158-168 | failing line: closing a namespace and opening another block leaves the closed name on the stack |
| StateMachine.Button.Update | example/state_machine/gamepad.hpp:59-64 | the three flags after a sample |
| StateMachine.PressIsRisingEdge | example/state_machine/gamepad.hpp:59-64 | after any samples a press (release) event is exactly a change up to down (down to up) between the last two |
| StateMachine.SimpleStateMachine.Stop | example/state_machine/state_machine.hpp:19-24 | damping with ratio 0 |
| StateMachine.SimpleStateMachine.Stand | example/state_machine/state_machine.hpp:26-37 | stands, and reports whether it did not before |
| StateMachine.SimpleStateMachine.Ctrl | example/state_machine/state_machine.hpp:39-50 | enters control exactly from standing with ratio above 0.95 |
| StateMachine.SimpleStateMachine.Standing | example/state_machine/state_machine.hpp:52-66 | moves the ratio by one increment within [0, 1], only while standing |
| StateMachine.RobotController.UpdateStateMachine | example/state_machine/robot_controller.hpp:154-177 | the transitions R2, A, L2 + B in this order with the gains of the two callbacks |
| StateMachine.RobotController.Standing | example/state_machine/robot_controller.hpp:279-294 | the ramp and the gains 40 and 1 times the ratio |
| StateMachine.RobotController.ControlStep | example/state_machine/robot_controller.hpp:179-210 | one step is the step function, and the command sent is its output |
| StateMachine.StepKeepsInv | example/state_machine/robot_controller.hpp:154-210 | every step keeps the ratio in [0, 1] and, in control, the ratio above 0.95 and the user controller's gains |
| StateMachine.EveryRun | example/state_machine/robot_controller.hpp:179-210 | the same over every run of inputs |
| StateMachine.GainsOfStep | example/state_machine/robot_controller.hpp:187-210 | each command has the initial pose with kp 0 and kd 2 in damping, the initial pose with 40 and 1 times the ratio in standing, and the user's targets with the controller's gains in control; L2 and B always select damping |
| StateMachine.SelectionIff | example/state_machine/robot_controller.hpp:154-177 | the mode of a step in terms of the buttons: L2 with B selects damping; else A going down selects control if the machine stands, or R2 goes down, and the ratio exceeds 0.95; else R2 going down selects standing; else nothing changes |
| StateMachine.MachineOfStep | example/state_machine/robot_controller.hpp:179-210 | what a step does to mode and ratio: standing, R2 raises and R1 lowers the ratio by one increment within [0, 1]; control ends if and only if gravity points up; L2 with B takes the ratio away; nothing else changes |
| StateMachine.ButtonsOfStep | example/state_machine/robot_controller.hpp:186-186 | each button remembers its own sample |
| StateMachine.GainsOnEntry | example/state_machine/robot_controller.hpp:249-269 | the gains set on entering standing and control |
| StateMachine.FallDamps | example/state_machine/robot_controller.hpp:197-204 | gravity pointing up in control stops the machine; the next command is limp unless that step newly presses R2, and then kp is at most 40 increments |
| StateMachine.ControlNeedsRamp | example/state_machine/robot_controller.hpp:279-294 | after a stop, any run that reaches control contains k standing steps with R2 held such that k increments exceed 0.95 |
| StateMachine.RampSuffices | example/state_machine/robot_controller.hpp:154-210 | after a stop, holding R2 for n steps and pressing A enters control if and only if n increments exceed 0.95 |
| StandTrajectory.StagesInOrder | example/go2/go2_stand_example.cpp:243-298 | for any positive durations a stage has progress only if all earlier stages are complete, and then advances every tick until complete |
| StandTrajectory.LastTick | example/go2/go2_stand_example.cpp:243-298 | all stages are complete exactly from active tick d1 + ... + dm - (m - 1) on |
| StandTrajectory.PositionBetweenWaypoints | example/go2/go2_stand_example.cpp:243-298 | every commanded joint lies between the two waypoints of the stage that moves it |
| StandTrajectory.PositionIsTravel | example/go2/go2_stand_example.cpp:249-292 | the blend formula equals the start plus the part made of each segment |
| StandTrajectory.EndsOfTrajectory | example/go2/go2_stand_example.cpp:243-298 | the trajectory leaves from the first waypoint and rests at the last from the tick on that completes all stages |
| StandTrajectory.ChangePerTick | example/go2/go2_stand_example.cpp:243-298 | for any positive durations and waypoints, a joint moves per tick at most by the sum of the increments of the stages that advance in it |
| StandTrajectory.MovesByTwoRatesIff | example/go2/go2_stand_example.cpp:243-298 | the bound by the increments of the moving segment and the next holds in every tick for all waypoints if and only if no stage but the first and last is a single tick |
| StandTrajectory.SingleTickJumps | example/go2/go2_stand_example.cpp:257-286 | the tick and waypoints at which a single-tick stage breaks that bound |
| StandTrajectory.StageTick | example/go2/go2_stand_example.cpp:257-298 | one later stage: advance and write exactly when the earlier ones are complete |
| StandTrajectory.FirstStageTick | example/go2/go2_stand_example.cpp:243-256 | the first stage: always advance, write unless that completed it |
| StandTrajectory.Go2Stand.constructor | example/go2/go2_stand_example.cpp:60-82 | no progress, with given targets and durations, and all twenty motors idle as InitLowCmd leaves them |
| StandTrajectory.Go2Stand.LowCmdWrite | example/go2/go2_stand_example.cpp:214-302 | nothing is published before call 500, which records the start pose; from then on each leg joint is sent its position on the trajectory start, target 1, target 2, target 2, target 3 with the gains 60 and 5, and the other eight motors stay idle |
| StandTrajectory.B2Stand.constructor | example/b2/b2_stand_example.cpp:60-90 | no progress, with given targets and durations, and all motors idle |
| StandTrajectory.B2Stand.LowCmdWrite | example/b2/b2_stand_example.cpp:220-328 | the same for the five stages start, target 1, target 2, target 2, target 3, target 4, with the gains 1000 and 10 |
| StandTrajectory.PoseIsPositions | example/go2/go2_stand_example.cpp:247-295 | the commanded pose is, joint by joint, the position the properties above speak about |
| G1Controller.G1IsWired | deploy/g1_motion_controller.cpp:85-99 | the joint-to-motor map is injective on the joints that have a motor, and in range |
| G1Joints.MapFollowsNames | deploy/g1_motion_controller.cpp:65-99 | each policy joint drives the motor of the same name, and only the fingers drive none; the motors are named by their own index |
| G1Joints.UndrivenMotors | example/g1/low_level/g1_ankle_swing_example.cpp:88-125 | no policy joint drives waist roll, waist pitch, and pitch and yaw of the wrists, and every other motor is driven |
| G1Joints.DefaultsAreSymmetric | deploy/g1_motion_controller.cpp:65-81 | the default pose is its own mirror image |
| G1Joints.GainsAreSymmetric | deploy/g1_motion_controller.cpp:101-109 | left and right motors have the same gains |
| G1Controller.Controller.constructor | deploy/g1_motion_controller.cpp:202-207 | the controller starts frozen, at time 0, with zero actions |
| G1Controller.Controller.OnLowState | deploy/g1_motion_controller.cpp:230-254 | a state message updates the motors, the attitude and the machine mode exactly if its checksum is right |
| G1Controller.Controller.BuildObs | deploy/g1_motion_controller.cpp:261-315 | the 123 entries, clamped to 100: velocities, gravity from the quaternion, zero command, and per joint relative position, velocity and previous action |
| G1Controller.GravityHasUnitLength | deploy/g1_motion_controller.cpp:276-286 | for a unit quaternion the gravity vector of the code has length 1 |
| G1Controller.GravityIsObserved | deploy/g1_motion_controller.cpp:276-315 | so, whatever square root is taken, neither the scaling nor the clamp changes it, and upright its z entry is +1 |
| G1Controller.GravityIsScaled | deploy/g1_motion_controller.cpp:276-289 | for any attitude, a gravity vector longer than 10^-6 is scaled to unit length, and a shorter one is left as it is |
| G1Controller.HeadOfObservation | deploy/g1_motion_controller.cpp:261-292 | the entries before the joints: zeros, the gyroscope, gravity and zeros, each within 100 |
| G1Controller.Controller.PolicyLoop | deploy/g1_motion_controller.cpp:319-379 | one tick of the policy loop is the state machine's tick on the buffered state; without sensor data it does nothing |
| G1Controller.Controller.CommandLoop | deploy/g1_motion_controller.cpp:383-445 | one tick publishes the machine mode received last, and mode, gains and target for every motor, or nothing without motor data |
| G1Controller.Controller.ScatterStand | deploy/g1_motion_controller.cpp:407-417 | the loop over joints interpolates every motor that a joint drives, as the target defined motor by motor through the inverse map, and leaves the others holding |
| G1Controller.Controller.ScatterPolicy | deploy/g1_motion_controller.cpp:419-440 | the same for the default pose before the first action and the clipped action after it |
| G1Controller.PhasesOfRun | deploy/g1_motion_controller.cpp:337-379 | in every run phases only move freeze, stand, policy: at exactly the 101st and the 252nd tick with data; the pose frozen is the one measured at the 101st, and actions are ready from the 253rd |
| G1Controller.TargetOfRun | deploy/g1_motion_controller.cpp:383-441 | in every run a driven motor holds, then is sent from the frozen pose to the default in 150 equal parts, then to the default, then within 1.5 of it |
| G1Controller.PartsAreEqual | deploy/g1_motion_controller.cpp:407-416 | the parts start at the frozen pose, end at the default, differ by a 150th of the way and stay between the two |
| G1Controller.StandUpIsSmooth | deploy/g1_motion_controller.cpp:337-441 | per policy tick the target changes by exactly (default - frozen) / 150, starts at the measured pose and does not change where the policy takes over |
| G1Controller.PolicyActsOnObservation | deploy/g1_motion_controller.cpp:295-374 | once the policy is in charge, each tick takes its answer to an observation within 100 that holds for each joint the offset from the default, the velocity and the previous action |
| G1Controller.GatherUndoesScatter | deploy/g1_motion_controller.cpp:295-300 | once the motors are where the policy sent them, each joint observes its clipped scaled action; 0 for a joint without a motor |
| G1Controller.ScatterUndoesGather | deploy/g1_motion_controller.cpp:427-438 | an action of twice the observed offset commands a motor to where it is if and only if that is within 1.5 of the default; motors without a joint always hold |
| Jsonize.FromJson | include/unitree/common/json/jsonize.hpp:164-168 | reading dispatches on the target's type and gives the merged value; when a cast fails the target keeps what was read before the failing element |
| Jsonize.FromAnySequence | include/unitree/common/json/jsonize.hpp:77-118 | elements are appended in order, for vectors and lists, up to the first that fails; null changes nothing |
| Jsonize.FromAnySet | include/unitree/common/json/jsonize.hpp:120-139 | elements are inserted, up to the first that fails; null changes nothing |
| Jsonize.FromAnyMap | include/unitree/common/json/jsonize.hpp:141-162 | entries override key by key, until one fails; null changes nothing |
| Jsonize.ToJson | include/unitree/common/json/jsonize.hpp:266-270 | writing any value gives a JSON form of it |
| Jsonize.ToAnySequence | include/unitree/common/json/jsonize.hpp:194-226 | one array element per element, in order |
| Jsonize.ToAnySet | include/unitree/common/json/jsonize.hpp:228-243 | one array element per member |
| Jsonize.ToAnyMap | include/unitree/common/json/jsonize.hpp:245-262 | one field per entry |
| Jsonize.RoundTrip | include/unitree/common/json/jsonize.hpp:164-168 | for every type nested from scalars, vectors, lists, sets and string maps: reading any JSON form of a value into an empty target gives the value back |
| Jsonize.ReadMerges | include/unitree/common/json/jsonize.hpp:77-162 | into a non-empty target vectors and lists append, sets unite, maps are overridden key by key |
| Jsonize.NullChangesNothing | include/unitree/common/json/jsonize.hpp:77-162 | reading null into any container leaves it as it is |
| Jsonize.ReadSucceedsIff | include/unitree/common/json/jsonize.hpp:77-168 | reading succeeds if and only if the value has scalars of the right kind where scalars are read, and null, arrays or objects of readable values where containers are |
| Jsonize.AbandonedKeeps | include/unitree/common/json/jsonize.hpp:77-162 | a cast that fails takes nothing out of the target; a vector or list stops at the first element that cannot be read |
| Jsonize.EncodesWhatIsReadIffCanonical | include/unitree/common/json/jsonize.hpp:77-162 | a readable JSON value is a form of what is read from it if and only if no container in it is null and no set lists a member twice |
| Jsonize.ReadIsTyped | include/unitree/common/json/jsonize.hpp:77-162 | what is read has the target's type |

## Left out

- DDS, RPC clients, sockets, pybind11 code, Torch inference and the Python runtime: their behaviour is not in these files; a received sample, a policy output and a published command are inputs and results here.
- Command-line examples, audio clients, documentation and stub rendering: straight-line dispatch and text templating.
- IEEE rounding: exact reals, so where float accumulation would move a threshold by a tick the model does not show it.
- Torn reads of the phase, its time and the actions between the two threads of the G1 controller: each loop tick is atomic.
- Message memory layout: a message is its words; how a C++ struct maps to them is not modelled, and neither is the checksum field of the commands the controllers publish.
- Three or more wrong bits spread wider than 33 bits: exactly the multiples of the generator go unnoticed (`CrcDetection.UndetectedErrors`), but the message lengths up to which every three, four or more bits are detected are not computed.
- Unlocked reads of `BlockQueue::Empty` and `Size`, and the timing of waits: a time-out may happen whenever a consumer sleeps.
- `BlockQueue::Get` that throws: it is the other `Get` with the missing item reported as an exception.
- The clock of the last received sample, status masks and the setting of callbacks in the listener, apart from the consumer's wait for a handler.
- Namespaces.DiscoverDeclarations: lines arrive as events, so the matching of characters by the two patterns is not modelled; all branches of a conditional compilation are read as one text, and macros that expand to braces are not expanded.
- White space beyond Latin-1, and letters and digits beyond ASCII, in the type text.
- TypeText.SupportedIffPrinted: the names of the known classes are taken to nest their brackets and to carry no leading colons and no reference mark, as the qualified names of classes do.
- Vertical tabs, form feeds and other characters at which Python also splits lines: a text's lines are given.
- WavIo.SeekToDataChunk: a walk that never ends gives no result, so such files are excluded, exactly those of `Wav.EndlessIff`; `WavIo.ReadWaveImpl` likewise.
- WavIo.ReadSamples: when an odd size overruns the buffer only the overrun is reported, since its effect is undefined; what a rejecting reader has by then stored in its rate and channel count is not modelled either.
- Files that cannot be opened for reading: the stream then fails before its first read.
- WavIo.WriteWave: the header sizes must fit int32_t, as must the number of samples; otherwise the C++ arithmetic is undefined.
- G1Controller.Controller.BuildObs: the square root in the norm of the gravity vector is an input; the vector and its scaling are modelled.
- G1Controller.Controller.CommandLoop: the checksum field of the command, because the layout of the message in memory is not modelled.
- Gamepad sticks, logging, timing and the user controller of the state-machine example: joint targets are inputs.
- StandTrajectory.Go2Stand.LowCmdWrite: header bytes, checksum and printed messages are left out, as in StandTrajectory.B2Stand.LowCmdWrite; the holding stage is the blend of two equal poses.
- Loop bodies that the originals write in one function are split into methods of their own: `Stripper.ReadOne`, `Stripper.ReadNext`, `DependencyOrder.Search.VisitAll`, `DependencyOrder.Search.Emit`, `Listener.ReaderListener.PutData`, `Namespaces.ReadSourceLine`, `WavIo.ReadStart`, `WavIo.NextChunk`, `WavIo.ReadFmt`, `WavIo.ReadSamples`, `StandTrajectory.StageTick`, `StandTrajectory.FirstStageTick`, `StandTrajectory.Go2Stand.MoveLegs`, `StandTrajectory.B2Stand.MoveLegs`, `G1Controller.Controller.BuildHead`, `G1Controller.Controller.FillGravity`, `G1Controller.Controller.ClampObs`, `G1Controller.Controller.ScatterStand`, `G1Controller.Controller.ScatterPolicy`.
- Scalar conversions of the JSON code, and user-defined `Jsonize` classes: their bodies are elsewhere; a scalar converts to itself and back, and any other conversion to a scalar fails.
- Jsonize.ToAnySet: members and map entries are visited in an arbitrary order, where the containers use ascending order; the proofs hold for every order.
- Parsing and printing of JSON text.
