# Verification of openCMS's algorithms

This project models six parts of openCMS in Dafny and proves what they are for. `dafny verify dfyconfig.toml` checks
it all.

1. **bcrypt, three times.** `Blowfish` is the reference: one round function, one encryption, one schedule over 521
   blocks. The C library (`CryptBlowfish`, `BfCrypt`), the i386 assembly (`X86`) and the browser script (`BcryptJs`,
   `BcryptJsRun`, `BcryptJsHash`) are each written in their own imperative form and proved against it, so they are
   proved equal to each other; `BcryptAgreement` states the end result and `BcryptJsGensalt` carries it on to the
   settings that the browser makes. `BcryptCodec` and `BcryptProperties` prove what a login relies on. The initial P and
   S words are one arbitrary common state.
2. **ISAAC** (`Isaac`, `IsaacSeed`, `IsaacStart`, `IsaacSeeder`). Every step, pass and mixer line has an explicit
   inverse; seeding is proved injective from the last memory word back to the seed.
3. **Nested-set numbering** (`NestedSet`, `NestedSetTheory`, `NestedSortable`). The interval theory of forests, and the
   recursive methods that push rows, hand numbers on and throw.
4. **The row cache of the SQL driver** (`RowCache`, `RowCacheTheory`, `RowCacheMeaning`, `DataSql`). A driver with
   table, frames and changed flag is proved to answer like one without a cache, over every run, and the operations of
   both are stated row by row.
5. **Base64** (`Base64`, `Base64Loops`) and **split and join** (`SplitJoin`): printers and parsers made of loops.
6. **Accounts** (`AuthModel`, `AuthLockout`, `AuthLogin`, `AuthAnswers`, `AuthStore`). The lockout over unbounded
   runs of calls on all accounts, and the way from a new salt to a login.

Bytes are `bv8`, words `bv32`; JavaScript numbers are 64-bit two's complement, which holds every value that occurs
exactly. Clocks, entropy, digests and the byte order of the machine are parameters. A method's contract ties its new
state to a function of the old one; the lemmas then speak about that function. What the main ones compute is also said
in numbers and cases, without their names.

## Assumptions

- The library's self-test (`contrib/crypt_blowfish-1.2/crypt_blowfish.c:759-776`) passes.
- Storage names have no colon in them (they name tables), keys no dot. `RowCacheTheory.KeysCanMeet` shows why the
  first is needed.
- `rise(k)` drops frame k and no other. Frames may be lost at any time.
- The JSON library writes values other than null without surrounding space and as texts that parse
  (`RowCacheTheory.Good`; `GoodLibraryExists` shows one that does). It need not read numbers back exactly; only
  `SetThenRead` asks this, of the one value that it speaks about.
- Every row's text is empty or JSON to begin with (`RowCacheTheory.Readable`); set writes nothing else.
- `isalnum` and `isspace` are those of the C locale, a `size_t` has 64 bits.
- The selectors of the page select exactly the tree's items; an item is its attribute and its children.

## Where code and comments differ

The model follows the code.

- `static/js/bCrypt.js:423` admits cost 31, but `1 << 31` is negative there, so no round is run; `BcryptAgreement`
  proves agreement with C exactly for the other costs.
- `opncms/bcrypt.h:24` says "4 < cost < 32"; 4 is accepted too, and 0 stands for 5.
- `src/tools.cpp:282` says unique values only; an array onto an array is pushed even if it is there, an object onto an
  array drops fields that the first object lacks, and an object onto a scalar throws.
- `module/data_sql.cpp:538` compares a field of the row's value, not the value, with the input, so set can return true
  without writing (`RowCacheTheory.SetThenRead`). Null is written as text that get reads as nothing while its frame
  says null (`RowCacheTheory.SetKeepsCoherenceIff`).
- `opncms/tools.h:154-157` speaks of a delimiter; split takes any character of it and runs of them as one.
- `static/js/bCrypt.js:316` does not check the fourth character of a group; `BcryptJsText.LastOctet` models the result.

## Model

| member | source | states |
|---|---|---|
| BcryptCodec.Itoa64 | contrib/crypt_blowfish-1.2/crypt_blowfish.c:363-386 | the two tables are inverse: every six-bit value has an alphabet character that reads back as it |
| BcryptCodec.AlphabetInOrder | contrib/crypt_blowfish-1.2/crypt_blowfish.c:363-364 | the alphabet is that of BF_itoa64, in its order |
| BcryptCodec.DecodeAccepts | contrib/crypt_blowfish-1.2/crypt_blowfish.c:396-427 | exactly the strings that start with ceil(4n/3) alphabet characters decode to n bytes |
| BcryptCodec.DecodeEncode | contrib/crypt_blowfish-1.2/crypt_blowfish.c:405-459 | decoding an encoding, whatever follows it, gives the bytes back, for every length |
| BcryptCodec.EncodeDecode | contrib/crypt_blowfish-1.2/crypt_blowfish.c:405-459 | encoding what was decoded gives the string back with only the unused bits of its last character cleared |
| BcryptCodecLoops.BfDecode | contrib/crypt_blowfish-1.2/crypt_blowfish.c:405-427 | the do-while loop with its early exits decodes in place, and returns -1 exactly where decoding is impossible |
| BcryptCodecLoops.BfEncode | contrib/crypt_blowfish-1.2/crypt_blowfish.c:429-459 | the do-while loop writes the encoding at its place in the buffer and nothing outside it |
| Sextets.OctetsOfSextets | contrib/crypt_blowfish-1.2/crypt_blowfish.c:415-424 | three bytes regrouped into four six-bit values and back are the same three bytes |
| Sextets.SextetsOfOctets | contrib/crypt_blowfish-1.2/crypt_blowfish.c:437-457 | four six-bit values regrouped into bytes and back survive; the last of an unfinished group keeps its used bits |
| Sextets.SameNumber | contrib/crypt_blowfish-1.2/crypt_blowfish.c:437-457 | three bytes and their four six-bit values are the digits of one number, in base 256 and in base 64 |
| Endianness.SwapAfterLoad | contrib/crypt_blowfish-1.2/crypt_blowfish.c:461-473 | on little- and big-endian machines alike, loading and swapping reads four bytes as one big-endian word |
| Endianness.StoreAfterSwap | contrib/crypt_blowfish-1.2/crypt_blowfish.c:461-473 | on both, swapping and storing writes a word's bytes most significant first |
| Endianness.LoadIsNumber | contrib/crypt_blowfish-1.2/crypt_blowfish.c:461-473 | what the two kinds of machine load, as numbers: the first byte is the lowest or the highest digit |
| Endianness.BfSwap | contrib/crypt_blowfish-1.2/crypt_blowfish.c:461-473 | the in-place loop swaps the first words and leaves the others |
| KeyFeeding.FedKeyIsStream | contrib/crypt_blowfish-1.2/crypt_blowfish.c:563-585 | expanded word i is the big-endian word at bytes 4i to 4i+3 of key and NUL repeated for ever |
| KeyFeeding.SignedReadingAgrees | contrib/crypt_blowfish-1.2/crypt_blowfish.c:573-577 | the reading with the sign extension bug gives the same words if and only if every byte from 0x80 on follows only 0xff bytes in its word or stands first |
| KeyFeeding.SevenBitKeysAgree | contrib/crypt_blowfish-1.2/crypt_blowfish.c:573-577 | for keys with all bytes below 0x80 both readings agree |
| KeyFeeding.Only72Bytes | contrib/crypt_blowfish-1.2/crypt_blowfish.c:570-584 | keys of at least 72 bytes with the same first 72 expand alike |
| KeyFeeding.SameWordsIffSameKey | contrib/crypt_blowfish-1.2/crypt_blowfish.c:570-584 | two keys expand to the same words if and only if they are the same C string or share their first 72 characters |
| KeyFeeding.FeedWord | contrib/crypt_blowfish-1.2/crypt_blowfish.c:571-580 | the inner loop with its pointer that wraps at NUL reads the stream |
| KeyFeeding.SetKey | contrib/crypt_blowfish-1.2/crypt_blowfish.c:563-585 | BF_set_key fills both arrays from the stream, for every key |
| Words.BigEndianIsNumber | contrib/crypt_blowfish-1.2/crypt_blowfish.c:573-580 | four bytes shifted together are the number whose base-256 digits they are |
| Blowfish.FMeaning | contrib/crypt_blowfish-1.2/crypt_blowfish.c:477-491 | the quotients and remainders of a word by powers of 256 look up the four quarters of S in turn; sum, exclusive or, sum |
| Blowfish.MagicText | contrib/crypt_blowfish-1.2/crypt_blowfish.c:83-86 | the six words are the text OrpheanBeholderScryDoubt |
| BlowfishInverse.DecryptUndoes | contrib/crypt_blowfish-1.2/crypt_blowfish.c:518-538 | the same sixteen rounds with the eighteen sub-keys in reverse order undo an encryption, for all boxes |
| BlowfishInverse.EncryptBijective | contrib/crypt_blowfish-1.2/crypt_blowfish.c:518-538 | so no two blocks are encrypted alike and every block is reached |
| CryptBlowfish.BfRoundIsFeistel | contrib/crypt_blowfish-1.2/crypt_blowfish.c:477-491 | BF_ROUND is the Feistel round of Blowfish |
| CryptBlowfish.BfEncryptIsEncrypt | contrib/crypt_blowfish-1.2/crypt_blowfish.c:518-538 | the sixteen unrolled lines and the exchange are the reference encryption |
| CryptBlowfish.Context.Body | contrib/crypt_blowfish-1.2/crypt_blowfish.c:544-560 | both pointer loops together replace every P and S word by the running encryption, in order |
| CryptBlowfish.SaltedStep | contrib/crypt_blowfish-1.2/crypt_blowfish.c:634-657 | one salted encryption, with its unrolled index, is the next step of the endless salt stream |
| CryptBlowfish.Context.SaltedSchedule | contrib/crypt_blowfish-1.2/crypt_blowfish.c:634-657 | salt[i & 2] over P, then pairs 2,3 and 0,1 over S, feed the sixteen salt bytes as one endless stream across all 521 blocks |
| CryptBlowfish.SaltKeyIsStream | contrib/crypt_blowfish-1.2/crypt_blowfish.c:681-702 | tmp1 to tmp4 mixed into P are the first eighteen words of the endless salt |
| CryptBlowfish.Context.ExpensiveRounds | contrib/crypt_blowfish-1.2/crypt_blowfish.c:659-705 | the loop runs the key and salt schedules count times in turn |
| CryptBlowfish.Context.EncryptMagic | contrib/crypt_blowfish-1.2/crypt_blowfish.c:707-718 | 64 encryptions of one block of the magic text |
| KeySchedule.OnlyOwnStepWrites | contrib/crypt_blowfish-1.2/crypt_blowfish.c:634-657 | during a schedule a pair of words changes only in its own step |
| KeySchedule.EveryPairIsItsOwnBlock | contrib/crypt_blowfish-1.2/crypt_blowfish.c:634-657 | afterwards every one of the 521 pairs holds the block that its own step encrypted: each word is written once |
| X86.RoundMeaning | contrib/crypt_blowfish-1.2/x86.S:74-92 | a BF_ROUND line mixes the waiting key word in first, applies F, and leaves the next key word waiting |
| X86.RoundKeepsStep | contrib/crypt_blowfish-1.2/x86.S:74-92 | each delayed-XOR round keeps the registers in step with the reference rounds |
| X86.EncryptBlock | contrib/crypt_blowfish-1.2/x86.S:94-117 | BF_ENCRYPT_START and BF_ENCRYPT_END compute the reference encryption |
| X86.LoopP | contrib/crypt_blowfish-1.2/x86.S:138-148 | the loop over P computes the first nine steps of the schedule |
| X86.LoopS | contrib/crypt_blowfish-1.2/x86.S:152-177 | four encryptions a turn write the 1024 S words as the schedule does |
| X86.BodyR | contrib/crypt_blowfish-1.2/x86.S:121-183 | for every P and S and any register contents, _BF_body_r leaves the same 1042 words as BF_body: same specification as CryptBlowfish.Context.Body |
| Bcrypt.SettingParts | contrib/crypt_blowfish-1.2/crypt_blowfish.c:610-627 | an accepted setting has at least 29 characters, the salt ones all in the alphabet |
| Bcrypt.PowIsShift | contrib/crypt_blowfish-1.2/crypt_blowfish.c:622 | (BF_word)1 << n is the power of two for every n up to 31 |
| Bcrypt.PowOfSum | contrib/crypt_blowfish-1.2/crypt_blowfish.c:622 | that power: it turns sums into products and is 2 for 1 |
| BcryptProperties.HeaderIff | contrib/crypt_blowfish-1.2/crypt_blowfish.c:610-622 | what the seven header checks let through, character by character: a cost up to 31, written in decimal |
| BcryptProperties.AcceptedIff | contrib/crypt_blowfish-1.2/crypt_blowfish.c:610-627 | accepted are exactly such a header with a cost from 4 on, followed by 22 alphabet characters |
| BfCrypt.ReadHeader | contrib/crypt_blowfish-1.2/crypt_blowfish.c:610-622 | the chain of comparisons and the number of rounds |
| BfCrypt.DigestRounds | contrib/crypt_blowfish-1.2/crypt_blowfish.c:605-718 | the digest is that of 1 << cost rounds, with the decoded salt and the key read as the third character says |
| BfCrypt.ReadSalt | contrib/crypt_blowfish-1.2/crypt_blowfish.c:623-628 | the decoded and swapped salt words are those of the salt bytes' stream, on both kinds of machine |
| BfCrypt.FinalBytes | contrib/crypt_blowfish-1.2/crypt_blowfish.c:707-726 | the swapped output words, seen as memory, are the digest bytes most significant first |
| BfCrypt.Compute | contrib/crypt_blowfish-1.2/crypt_blowfish.c:605-718 | all checks in order, the schedules, 1 << cost rounds and the digest; the rounds are stated by the shift |
| BfCrypt.CryptInto | contrib/crypt_blowfish-1.2/crypt_blowfish.c:587-738 | BF_crypt: NULL with ERANGE or EINVAL and an untouched buffer, or the 60-character hash, which starts with the setting, and its NUL; each exactly when |
| BfCrypt.GensaltInto | contrib/crypt_blowfish-1.2/crypt_blowfish.c:783-807 | the generator's refusals, with the empty string where it fits, or header, cost and encoded entropy; each exactly when |
| BcryptProperties.EncodeInjective | contrib/crypt_blowfish-1.2/crypt_blowfish.c:429-459 | different salts have different texts |
| BcryptProperties.CanonicalSaltIsEncoding | contrib/crypt_blowfish-1.2/crypt_blowfish.c:720-722 | the salt text with its last character masked is the encoding of the decoded salt |
| BcryptProperties.DependsOnCanonicalSetting | contrib/crypt_blowfish-1.2/crypt_blowfish.c:610-630 | the result depends on the setting only through 28 characters and two bits of the 29th |
| BcryptProperties.HashIsFixedPoint | contrib/crypt_blowfish-1.2/crypt_blowfish.c:587-738 | for every accepted setting, hashing the key under its own hash gives that hash |
| BcryptProperties.GeneratedSalt | contrib/crypt_blowfish-1.2/crypt_blowfish.c:783-807 | every generated salt is a good setting whose cost reads back as count (0 as 5) and whose salt decodes to the entropy |
| JsNumbers.LowOfXor | static/js/bCrypt.js:334-348 | the low 32 bits of a JavaScript ^ are the exclusive or of the low 32 bits |
| JsNumbers.LowOfJsSum | static/js/bCrypt.js:337-340 | sums that leave the 32-bit range still have the right low 32 bits |
| JsNumbers.SumIsExact | static/js/bCrypt.js:337-340 | no sum here comes near 2^53, so doubles hold it exactly |
| JsNumbers.MaskedShifts | static/js/bCrypt.js:337-347 | the signed shifts, once masked, give the bytes of the word |
| JsNumbers.Int32Value | static/js/bCrypt.js:334-348 | the operators see the remainder by 2^32 and return 2^32 less from 2^31 on |
| BcryptJs.HalfRoundIsFeistel | static/js/bCrypt.js:336-348 | a half round of encipher on JavaScript numbers is the Feistel round on words |
| BcryptJs.BCrypt.Encipher | static/js/bCrypt.js:328-352 | encipher replaces the two numbers at its offset by the reference encryption and no others |
| BcryptJs.BCrypt.StreamToWord | static/js/bCrypt.js:353-363 | streamtoword returns the next big-endian word of the endless list and advances the offset |
| BcryptJs.BCrypt.Key | static/js/bCrypt.js:368-389 | key is the schedule of one round |
| BcryptJs.BCrypt.EksKey | static/js/bCrypt.js:390-414 | ekskey feeds the salt as one endless stream across P and on into S: same specification as the C schedule |
| BcryptJsRun.OnePass | static/js/bCrypt.js:452-454 | one turn of the interchanged loop encrypts each of the three blocks once more |
| BcryptJsRun.FinalBytes | static/js/bCrypt.js:451-462 | 64 passes over three blocks give the digest that three times 64 encryptions give |
| BcryptJsRun.MultiplesAre | static/js/bCrypt.js:442-444 | the rounds that are multiples of m number n/m, so progress is called that often |
| BcryptJsRun.CutsAre | static/js/bCrypt.js:445-447 | the cuts counted are the rounds that the clock cuts off |
| BcryptJsRun.CryptRaw.Work | static/js/bCrypt.js:436-449 | the working branch runs some rounds in order, at least one, up to the first that the clock cuts off or the last |
| BcryptJsRun.CryptRaw.Turn | static/js/bCrypt.js:435-465 | one timer turn makes its own choice: it works and asks for another turn, or finishes, calls back once and asks for none |
| BcryptJsRun.CryptRaw.Run | static/js/bCrypt.js:433-465 | turns are taken while one is due; for every way the clock cuts they end, after exactly the rounds of the uncut loop, one callback with its bytes, Cuts+2 turns, never more than rounds+1, and rounds/(rounds/100+1) calls to progress |
| BcryptJsText.EncodeBase64 | static/js/bCrypt.js:249-278 | encode_base64 is bcrypt's encoding, and throws for useless lengths |
| BcryptJsText.DecodeBase64 | static/js/bCrypt.js:286-327 | decode_base64 stops at a bad character, except that it takes a bad fourth one as all ones |
| BcryptJsText.GetByteValue | static/js/bCrypt.js:236-248 | from 128 on the low bits of getByte are 128 plus the remainder by 128 |
| BcryptJsText.Char64Cases | static/js/bCrypt.js:279-285 | char64 is the inverse of the alphabet below 128, 0 at 128, and -1 elsewhere |
| BcryptJsText.UncheckedCharacter | static/js/bCrypt.js:316-319 | a bad fourth character makes a byte 0xff instead of ending the decoding |
| BcryptJsText.JsDecodeLikeC | static/js/bCrypt.js:286-327 | where BF_decode accepts a text, decode_base64 returns the same bytes |
| BcryptJsHash.RunHashPw | static/js/bCrypt.js:472-523 | hashpw with its exceptions and all its timer turns, for any clock, returns the specified outcome |
| BcryptJsHash.VersionErrors | static/js/bCrypt.js:485-494 | the first two exceptions, exactly when; otherwise the setting is read from position 3 or 4 |
| BcryptJsHash.SettingErrors | static/js/bCrypt.js:497-507 | the other three exceptions, exactly when, and so exactly when there is a callback |
| BcryptJsResult.ResultRepeatsSetting | static/js/bCrypt.js:509-523 | the string passed to the callback repeats the version and digits of the setting, or says NaN, then 22 characters of salt and 31 of digest |
| BcryptJsResult.RepeatedPasswordsAlike | static/js/bCrypt.js:503-506 | under a 2 setting, which has no NUL, a password and its repetition give the same result |
| BcryptJsGensalt.DrawSalt | static/js/bCrypt.js:536-540 | sixteen calls of isaac's rand in turn, made positive and masked |
| BcryptJsGensalt.LowOfAbsValue | static/js/bCrypt.js:538 | the byte is that of the number's absolute value |
| BcryptJsGensalt.GenSalt | static/js/bCrypt.js:525-542 | gensalt writes header, cost (10 where the argument is out of range) and the encoded numbers |
| BcryptJsGensalt.BrowserSettingIsCommon | static/js/bCrypt.js:525-542 | whatever isaac gives, both sides take the setting, with the cost asked for and the sixteen bytes as its salt |
| BcryptJsGensalt.BrowserHashIsServers | static/js/bCrypt.js:472-542 | so what the browser hashes under a setting of its own is what BF_crypt gives, for every argument but 31 |
| BcryptAgreement.RoundsAgree | static/js/bCrypt.js:428 | the signed 1 << cost is the unsigned one of C if and only if the cost is not 31, where it is negative and no round is run |
| BcryptAgreement.NoRoundsAtCost31 | static/js/bCrypt.js:428-436 | at cost 31 the browser's digest is that of the salted schedule alone |
| BcryptAgreement.PasswordRead | static/js/bCrypt.js:503-506 | the password bytes and NUL that hashpw builds are the C string's stream |
| BcryptAgreement.HashPwIsBfCrypt | static/js/bCrypt.js:472-523 | for every NUL-free password, every setting that both take and every cost from 4 to 30, the string passed to the callback is BF_crypt's output |
| Isaac.SafeAddIsAdd | static/js/isaac.js:106-110 | the adder of halves adds modulo 2^32 |
| Isaac.ShuffleInverse | static/js/isaac.js:198-203 | each of the four xor-shifts has an inverse on both sides |
| Isaac.UnstepStep | static/js/isaac.js:197-207 | a step with its data-dependent indices is undone: x, then the old brs, then the old acc |
| Isaac.StepUnstep | static/js/isaac.js:197-207 | and every state is reached: the step after its inverse is the identity |
| Isaac.IndicesAreQuotients | static/js/isaac.js:205-206 | the indices are the quotients by 4 and by 1024, modulo 256 |
| Isaac.StepMeaning | static/js/isaac.js:198-204 | the new acc, for each i & 3: the shift by 13, 6, 2 or 16 mixed in, and the word 128 places on added |
| Isaac.StepLookups | static/js/isaac.js:204-206 | the new m[i] and brs: which words are looked up and what is added to them; all else is kept |
| Isaac.StepsInverse | static/js/isaac.js:197-207 | so are any number of steps of a pass |
| Isaac.GenerationBijective | static/js/isaac.js:194-207 | a whole pass of 256 steps with its counter is a bijection of (m, acc, brs, cnt) |
| Isaac.GenerationsBijective | static/js/isaac.js:193-208 | and so is any number of passes |
| Isaac.DrawsInOrder | static/js/isaac.js:212-217 | rand hands out every result once, batch after batch, each from its last to its first |
| Isaac.Generator.DoStep | static/js/isaac.js:198-206 | what the loop body leaves in acc, m[i], brs and r[i], shift by shift and index by index, and that all else is kept; so it is the step |
| Isaac.Generator.CountUp | static/js/isaac.js:194-195 | the counter goes up by one and brs by the new counter |
| Isaac.PassesFor | static/js/isaac.js:190-191 | the number of passes: 1 for no number and zero, otherwise the size of the next integer below |
| Isaac.Generator.Pass | static/js/isaac.js:194-207 | the in-place loop of 256 steps is one generation and leaves its results in r |
| Isaac.Generator.Prng | static/js/isaac.js:187-209 | prng(n) runs abs(floor n) generations, one for zero or no number |
| Isaac.Generator.Rand | static/js/isaac.js:212-217 | rand runs prng when the supply is used up and returns the next result |
| IsaacSeed.LineInverse | static/js/isaac.js:143-150 | every line of the mixer has an inverse on both sides |
| IsaacSeed.SeedMixIsLines | static/js/isaac.js:142-151 | the mixer as written is its eight lines in turn |
| IsaacSeed.SeedMixBijective | static/js/isaac.js:142-151 | the mixer is a bijection of eight words |
| IsaacStart.GoldenRatio | static/js/isaac.js:126 | the constant is 2^32 divided by the golden ratio, rounded down |
| IsaacStart.ScrambledValues | static/js/isaac.js:125-154 | the eight words after the four scrambling mixes: those of Jenkins' generator |
| IsaacSeed.PassInjective | static/js/isaac.js:156-167 | the memory after the first pass determines the seed words |
| IsaacSeed.SecondPassInjective | static/js/isaac.js:168-180 | the second pass can be undone although it starts from the last block of its own source |
| IsaacSeed.SeedingInjective | static/js/isaac.js:121-184 | two arrays leave the same (m, acc, brs, cnt) if and only if their folded words are the same |
| IsaacSeeder.ShortSeedFolds | static/js/isaac.js:135-139 | an array of at most 256 elements is folded to itself and zeros, what is no number being zero |
| IsaacSeeder.LongSeedFolds | static/js/isaac.js:137-138 | elements after whole rounds of 256 are added to the first ones, place by place |
| IsaacSeeder.PassRecurrence | static/js/isaac.js:156-167 | block j of a pass is the block before it with the source's block added, mixed |
| IsaacSeeder.ShortSeedsDiffer | static/js/isaac.js:121-184 | arrays of at most 256 words that differ after zero padding never leave the same state |
| IsaacSeeder.RunPass | static/js/isaac.js:156-180 | the in-place pass, also where the memory is its own source, is the specified one |
| IsaacSeeder.Seed | static/js/isaac.js:121-184 | seed leaves the specified state, its first results and a full supply |
| NestedSet.RowBounds | static/js/nestedsortable.js:754-791 | all numbers of a forest lie in the 2n it is given, left before right |
| NestedSet.OrdersHaveSameRows | static/js/nestedsortable.js:754-791 | post-order (pushes) and pre-order hold the same rows, each as often |
| NestedSet.PreOrderSorted | static/js/nestedsortable.js:750 | pre-order is the order of the left ends |
| NestedSet.SortedUnique | static/js/nestedsortable.js:750 | any sort by left end gives that one list |
| NestedSet.AllIdsConvertible | static/js/nestedsortable.js:770-781 | a forest with all ids matching never makes the conversion throw |
| NestedSet.EveryItem | static/js/nestedsortable.js:770-781 | the two conditions on a forest, said of each of its items at any depth |
| NestedSetTheory.EveryNumberIffAllIds | static/js/nestedsortable.js:754-791 | every number of a forest's stretch is used as an end, and then once, if and only if all ids match |
| NestedSetTheory.ArrayUsesEveryNumberIff | static/js/nestedsortable.js:728-750 | the whole array of n items uses each of 1..2n+2 (1..2n without root) once if and only if all ids match |
| NestedSetTheory.ArrayUsesNoNumberTwice | static/js/nestedsortable.js:728-750 | for every forest no number is used twice and none beyond that range |
| NestedSetTheory.RootIsAnItem | static/js/nestedsortable.js:735-743 | the closed form for the root is what the recursion gives when the list is itself an item |
| NestedSetTheory.EveryRowIsAnItem | static/js/nestedsortable.js:783-790 | every row stands for an item, has its id, and right = left + 2*size - 1 |
| NestedSetTheory.ContainsIffUnder | static/js/nestedsortable.js:754-791 | with distinct ids one interval contains another if and only if its item is an ancestor |
| NestedSetTheory.DepthCountsIntervals | static/js/nestedsortable.js:761-767 | for every forest that can be converted, a row's depth is the base depth plus the number of intervals around it |
| NestedSetTheory.ParentIsAround | static/js/nestedsortable.js:772-781 | parent_id names the item one level up whose interval is around the row |
| NestedSetTheory.ArrayParents | static/js/nestedsortable.js:728-781 | in the whole array of every forest that can be converted, every row but the root's has its parent's row around it |
| NestedSetTheory.ArrayDepths | static/js/nestedsortable.js:728-767 | in the whole array, with or without root, a row's depth counts the intervals around it from the start depth on, and the top ones have the root as parent |
| NestedSetTheory.RootRow | static/js/nestedsortable.js:735-743 | the root's row: no parent, the start depth, the first and the last number, all others inside |
| NestedSetTheory.HeightIsDepthInside | static/js/nestedsortable.js:783-790 | the largest depth inside an item's interval, minus its own, is the height of the items below it that have rows |
| NestedSetTheory.LevelsAreDepthInside | static/js/nestedsortable.js:844-855 | the levels below an item are that difference if and only if an item on the lowest level has a row; so they are where all ids below match |
| NestedSetTheory.RebuildIffAllIds | static/js/nestedsortable.js:728-793 | the forest can be read back from the array by interval widths alone if and only if all ids match |
| NestedSetTheory.LevelsKeepForest | static/js/nestedsortable.js:696-726 | toHierarchy's result determines the forest if and only if toArray can convert it |
| NestedSetTheory.ShowsIff | static/js/nestedsortable.js:696-726 | item by item: undefined without a match, an id alone for an item without children, an id and as many levels for one with children; only the levels are such |
| NestedSetTheory.ShownBranchesAreFull | static/js/nestedsortable.js:712-719 | no element at any depth has an empty list of children |
| NestedSetTheory.FlatAndNestedAgree | static/js/nestedsortable.js:696-793 | the nested form is computable from the array and the array from the nested form |
| NestedSortable.Conversion.RecursiveArray | static/js/nestedsortable.js:754-791 | _recursiveArray pushes post-order onto the shared list and returns the next number; it throws exactly where an attribute is missing or a parent does not match |
| NestedSortable.Conversion.RecursiveChildren | static/js/nestedsortable.js:761-768 | the loop over a list hands the numbers on from sibling to sibling |
| NestedSortable.SortByLeft | static/js/nestedsortable.js:750 | the sort keeps the rows and orders their left ends |
| NestedSortable.ToArray | static/js/nestedsortable.js:728-752 | toArray throws exactly for forests that are not convertible, otherwise returns root and pre-order rows |
| NestedSortable.ToHierarchy | static/js/nestedsortable.js:696-726 | toHierarchy with its recursion returns a list that shows the forest item by item, without an empty list of children anywhere |
| NestedSortable.GetChildLevels | static/js/nestedsortable.js:844-855 | _getChildLevels is the height below the item, one more when asked below the top |
| RowCacheTheory.KeysApart | module/data_sql.cpp:166-167 | cache keys of different rows of tables without a colon differ, and none is a storage's key |
| RowCacheTheory.KeysCanMeet | module/data_sql.cpp:166-167 | with a colon in a storage's name two rows can share a key |
| RowCacheTheory.GetIsDirect | module/data_sql.cpp:243-323 | in a coherent state string get returns what the table holds, whatever is cached, and stays coherent |
| RowCacheTheory.GetJsonIsDirect | module/data_sql.cpp:156-238 | JSON get yields the value of that text, or nothing defined |
| RowCacheTheory.GetJsonDiffers | module/data_sql.cpp:171-179 | JSON get ends differently from a read of the table if and only if a usable frame is empty (true instead of false) or no JSON (throws instead of false) |
| RowCacheTheory.SetIsDirect | module/data_sql.cpp:496-581 | set ends as, and does to the table, what a driver without a cache does, and keeps coherence |
| RowCacheTheory.SetKeepsCoherenceIff | module/data_sql.cpp:496-581 | set keeps the cache coherent if and only if it does not write null |
| RowCacheTheory.SetThenText | module/data_sql.cpp:518-580 | after a true set the tables are as before where the row or its field of the key's name had the value, and otherwise hold the merged value's text |
| RowCacheTheory.SetThenRead | module/data_sql.cpp:518-580 | where the library reads the merged value back, the row then reads as the value set if and only if it did before, or no field of the key's name equals it and merging amounts to replacing |
| RowCacheTheory.MergeReplaces | src/tools.cpp:286-408 | json_set leaves exactly the value set if and only if there was nothing, or no array and no object field that the value lacks |
| RowCacheMeaning.MergeIff | src/tools.cpp:286-408 | json_set on a value, case by case: what is appended where, which fields are united or renewed, and that it throws exactly for an object onto a scalar |
| RowCacheMeaning.NormalTrims | module/data_sql.cpp:205-206 | a row's text is what stands between the white space at its ends, and nothing for null |
| RowCacheMeaning.DirectSetEnds | module/data_sql.cpp:496-581 | set throws exactly for an object onto a scalar and is false exactly for an empty name, an empty row or a missing table; neither changes anything |
| RowCacheMeaning.DirectSetWrites | module/data_sql.cpp:538-580 | where set is true and the value was not there, the row alone is written, with the value or the merge of both |
| RowCacheMeaning.DirectUnset | module/data_sql.cpp:538-580 | an undefined value changes something only where the row's object has a field of the key's name |
| RowCacheMeaning.DirectEraseEnds | module/data_sql.cpp:597-642 | erase is true exactly where the row has a value; then it is gone and no other row is touched |
| RowCacheMeaning.DirectCreateEnds | module/data_sql.cpp:116-150 | after create the table is there, an old one as it was and a new one empty |
| RowCacheMeaning.DirectClearEnds | module/data_sql.cpp:644-671 | after clear the table and its rows are gone and all others as before |
| RowCacheMeaning.ReadIsCached | module/data_sql.cpp:243-323 | a row that was read is answered from its frame the next time, whatever the tables hold then |
| RowCacheMeaning.ReadValueIsCached | module/data_sql.cpp:156-238 | and so is a value |
| RowCacheMeaning.WriteIsFresh | module/data_sql.cpp:171-179 | after a write, an erase or a clear no frame is trusted: the next read is one of the tables |
| RowCacheMeaning.CreateIsCached | module/data_sql.cpp:126-127 | create trusts the frame that it left |
| RowCacheTheory.EraseIsDirect | module/data_sql.cpp:597-642 | erase ends and acts like a driver without a cache |
| RowCacheTheory.CreateIsDirect | module/data_sql.cpp:116-150 | create makes the table although it trusts a frame that says it exists |
| RowCacheTheory.ClearIsDirect | module/data_sql.cpp:644-671 | clear drops the table as a driver without a cache does, leaves no frame, and so keeps coherence |
| RowCacheTheory.EvictKeeps | module/data_sql.cpp:171-179 | losing any frame at any time is harmless |
| RowCacheTheory.RunIsDirect | module/data_sql.cpp:116-704 | over every run of both gets, set, erase, create and clear with frames lost at will, every answer and the tables are those of a driver without a cache, and every frame agrees with its row |
| RowCacheTheory.FreshRunIsDirect | module/data_sql.cpp:13-17 | a new driver starts coherent with any tables, so from the start no run tells it from one without a cache |
| RowCacheTheory.GoodLibraryExists | src/tools.cpp:203-225 | what is asked of the JSON library can be met: a library that reads back null, truth values and strings meets it |
| DataSql.DotFreeIsOnePart | module/data_sql.cpp:706-720 | a key without dots is one part |
| DataSql.MergeObjects | src/tools.cpp:309-334 | object onto object: the loop is the right-biased union |
| DataSql.MergeIntoArray | src/tools.cpp:335-374 | object onto array: the two loops refresh the first object's own fields, or push one new object |
| DataSql.JsonSet | src/tools.cpp:286-408 | json_set on an existing value is the merge stated case by case, with its exception for an object onto a scalar |
| DataSql.Driver.GetString | module/data_sql.cpp:243-323 | while frames agree with rows, string get returns the row's text and keeps that agreement, whatever is cached; its whole new state |
| DataSql.Driver.GetValue | module/data_sql.cpp:156-238 | while frames agree with rows, JSON get assigns the value of the row's text, or fails and leaves its argument alone; its whole new state |
| DataSql.Driver.PutValue | module/data_sql.cpp:538-580 | set after its reads: insert, merge and update, refresh of the frame, flag |
| DataSql.Driver.SetValue | module/data_sql.cpp:496-581 | while frames agree with rows, and unless null is written, set ends as and does to the tables what a driver without a cache does; its two early returns, exceptions and whole new state |
| DataSql.Driver.EraseRow | module/data_sql.cpp:597-642 | while frames agree with rows, erase ends as and removes what a driver without a cache does, the frame included |
| DataSql.Driver.ClearTable | module/data_sql.cpp:644-671 | afterwards there is no such table and no frame |
| DataSql.Driver.CreateTable | module/data_sql.cpp:116-150 | while frames agree with rows there is a table afterwards, also where create trusts its frame |
| Base64.LettersLength | src/base64.cpp:41-82 | the letters of n bytes are ceil(4n/3), all in the alphabet |
| Base64.AlphabetInOrder | src/base64.cpp:31-34 | the alphabet is that of table 1 of RFC 4648, in its order |
| Base64.GroupIsNumber | src/base64.cpp:51-54 | three octets are the digits of the 24-bit quantity of section 4 of RFC 4648 in base 256 |
| Base64.SixesOfNumber | src/base64.cpp:51-54 | and its four values are the digits in base 64 |
| Base64.TestVectors | src/base64.cpp:41-82 | the seven test vectors of section 10 of RFC 4648, padding included |
| Base64.EncodedLength | src/base64.cpp:41-82 | with padding the length is 4*ceil(n/3), and below 2^30 bytes fits the decoder's int |
| Base64.DecodedLength | src/base64.cpp:84-122 | decoding yields 3*(m/4) bytes and k-1 for k letters left over |
| Base64.DecodeEncode | src/base64.cpp:41-122 | decoding undoes encoding for every byte string |
| Base64.EncodeDecode | src/base64.cpp:41-122 | for every string, encoding what was decoded gives the letters in front in canonical form: unused bits cleared, a letter alone in its group dropped, padding added |
| Base64.OnlyPrefixMatters | src/base64.cpp:92 | letters decode alike whatever follows them that does not start with a letter |
| Base64Loops.EncodeFormulas | src/base64.cpp:51-54 | the four masked lines are the six-bit groups of the 24-bit quantity of section 4 of RFC 4648 |
| Base64Loops.DecodeFormulas | src/base64.cpp:98-100 | each octet comes right as soon as the two values it needs are letters', so the 0xff of npos does no harm |
| Base64Loops.Base64Encode | src/base64.cpp:41-82 | the loop with its two small buffers writes the padded encoding |
| Base64Loops.Base64Decode | src/base64.cpp:84-122 | the loop decodes the longest prefix of letters |
| SplitJoin.SplitIsSplittable | src/tools.cpp:128-140 | split never produces an empty inner part or a delimiter inside a part |
| SplitJoin.SplitUndoesJoin | opncms/tools.h:165-179 | split of join is the vector again if and only if it is non-empty, free of delimiters and without empty inner elements |
| SplitJoin.JoinOfSplit | src/tools.cpp:128-140 | join of split is the string with each run of delimiters collapsed |
| SplitJoin.JoinGivesString | src/tools.cpp:128-140 | for one character as delimiter, join of split is the string itself where no two delimiters are neighbours |
| SplitJoin.SplitKeepsCharacters | src/tools.cpp:128-140 | split drops the delimiters and no other character, and keeps their order |
| SplitJoin.JoinLength | opncms/tools.h:165-179 | join puts one delimiter between neighbours and none elsewhere |
| SplitJoin.CollapsedSplitsAlike | src/tools.cpp:128-140 | and splits like the original |
| SplitJoin.SplitInto | src/tools.cpp:128-140 | the find loop with npos ends and appends the parts, the empty last one included |
| SplitJoin.JoinAll | opncms/tools.h:165-179 | the iterator loop is the join |
| AuthLockout.CheckTurns | module/auth.cpp:399-430 | a success sets the counter to 0, a failure counts or locks, and nothing else of any record changes |
| AuthLockout.ChangeTurned | module/auth.cpp:246-278 | a wrong old password counts like a failed check |
| AuthLockout.RenameTurned | module/auth.cpp:432-446 | and so does one given to name |
| AuthLockout.RunTurns | module/auth.cpp:72-481 | over every run of calls on all accounts that does not reset, block, activate or set the counter of one, its lock is what the verdicts on its passwords make of it |
| AuthLockout.LockedIffStreak | module/auth.cpp:421-429 | an open account with a failures gets locked if and only if five failures come in a row, or 5-a at the start |
| AuthLockout.FailuresCount | module/auth.cpp:421-429 | n failures in a row: the counter rises to 4 and the one that makes five locks, no sooner |
| AuthLockout.FiveFailuresLock | module/auth.cpp:399-430 | in any steady run from counter 0, four failures and no other verdict leave an open account with counter 4, and five lock it |
| AuthLockout.LockedStays | module/auth.cpp:399-404 | a locked account stays locked over any verdicts |
| AuthLockout.UnblockKeepsCounter | module/auth.cpp:471-481 | block(false) keeps the counter, so the next failure locks again if and only if the counter was 4 or 5 |
| AuthLogin.SaltMade | src/bcrypt.cpp:12-34 | a salt is made if and only if the rounds are 0 or 4 to 31 and there are 16 bytes of entropy |
| AuthLogin.SaltAccepted | src/bcrypt.cpp:12-34 | every salt that is made is a usable setting with the cost asked for |
| AuthLogin.StoredHash | src/bcrypt.cpp:36-58 | a password hashes the same under its stored hash |
| AuthLogin.HashingThrowsIff | src/bcrypt.cpp:36-58 | hashing a new password throws if and only if there was no salt and it is not empty |
| AuthLogin.LongPasswordsAlike | module/auth.cpp:382-388 | passwords with the same first 72 bytes open the same accounts |
| AuthLogin.CreateMakes | module/auth.cpp:140-185 | create stores a closed account with counter 0 and a hash that verify turns into an active one |
| AuthLogin.CreateThenLogin | module/auth.cpp:140-185 | once verified, a created account accepts its password if and only if there was a salt for it |
| AuthLogin.ResetThenLogin | module/auth.cpp:211-243 | a reset password is accepted at once under the same condition |
| AuthLogin.ChangeThenLogin | module/auth.cpp:246-278 | and a changed one |
| AuthAnswers.VerdictIs | module/auth.cpp:359-397 | false unless the account is active, the method is bcrypt and the stored password starts with $2a$; then the comparison of two hashes or the exception of hashing |
| AuthAnswers.CheckCounts | module/auth.cpp:399-430 | the record after a check: counter 0 after a success; after a failure one more up to 4, locked from 4 on, untouched with no proper counter |
| AuthAnswers.ResetAnswers | module/auth.cpp:211-243 | true exactly for a known account, bcrypt, and a password that is empty or for which there is a salt; an exception exactly where there is none |
| AuthAnswers.ChangeAnswers | module/auth.cpp:246-278 | true exactly where the old password passes and the new one can be hashed; the exceptions |
| AuthAnswers.RenameAnswers | module/auth.cpp:432-446 | name answers as check does, and after success the record has the name and counter 0 |
| AuthAnswers.CreateAnswers | module/auth.cpp:140-185 | the empty string exactly for a taken or empty e-mail or another method, an exception exactly without a salt, otherwise the hash of a closed account with counter 0 |
| AuthStore.AuthData.CheckUser | module/auth.cpp:399-430 | after a failure at counter 0 to 3 the account is active with one more, at 4 it is blocked; after a success the counter is 0; no other record is touched, and an account that is not active stays as it is |
| AuthStore.AuthData.AuthorizeUser | module/auth.cpp:359-397 | the comparison of two hashes for an active account whose stored password starts with $2a$, with its exception, and false for all others |
| AuthStore.AuthData.GetAttempts | module/auth.cpp:99-117 | the counter of an active account, and -1 exactly where the account is not active or has no counter from 0 to 5 |
| AuthStore.AuthData.PutAttempts | module/auth.cpp:119-138 | the count is read back next and no other record changes, or -1 and nothing changes; exactly when |
| AuthStore.AuthData.Activate | module/auth.cpp:89-97 | the status is 1 or 0 as the flag says, nothing else of any record changes, and a record made this way has no password |
| AuthStore.AuthData.SetBlock | module/auth.cpp:471-481 | a known account is locked or active as the flag says, with its counter, password and all other records kept |
| AuthStore.AuthData.CreateUser | module/auth.cpp:140-185 | a new account that is neither active nor blocked and the hash for it, or nothing changed; each exactly when |
| AuthStore.AuthData.ResetPassword | module/auth.cpp:211-243 | the account is active with counter 0 even if it was locked, and the new password passes if and only if there was a salt; true and false exactly when |
| AuthStore.AuthData.ChangePassword | module/auth.cpp:246-278 | the lock turns as for check, no other record changes, and after success the new password passes if and only if there was a salt; true and false exactly when |
| AuthStore.AuthData.ChangeName | module/auth.cpp:432-446 | the lock turns as for check, no other record changes, and after success the record has the name |
| AuthStore.AuthData.VerifyHash | module/auth.cpp:331-357 | the e-mail of an account that is active afterwards, exactly for a known hash of an account that was new or active; otherwise the empty string and nothing changed |

## Left out

- The digits of the P and S tables, and the self-test vectors: constants.
- gensalt of bCrypt.js with an argument that is no integer.
- hashpw in the "$2$" form and with characters above 255 is modelled in `BcryptJsHash`, but not compared with C, which
  has neither.
- Timer turns of two overlapping calls of crypt_raw on one object: they share P and S, and the script forbids nothing.
- The checks of crypt_raw for a bad number of rounds or salt length are part of hashpw's errors, not of `CryptRaw`.
- The order of independent instructions in the assembly's rounds, its stack switch and _BF_clean.
- The realloc logic and the other hash formats of wrapper.c and crypt_gensalt.c: DES, BSDI and MD5.
- isaac.js: seeds that are numbers or strings, Math.random and toIntArray; numbers in a seed array that are no 32-bit
  words.
- nestedsortable.js: mouse handling, CSS, and the regular expression of the id pattern, which is a label here.
- The page's own sort is modelled by an insertion sort; only its result matters.
- data_sql.cpp: dotted keys, whole-storage get and set, and exists, with which the cache does not stay in step; SQL
  errors other than a missing table or a duplicate key; columns that are SQL NULL.
- RowCacheTheory.RunIsDirect: stated for keys without dots, storages without colons and values other than null, as the
  other cases do break coherence (`RowCacheTheory.SetKeepsCoherenceIff`) or belong to the dotted keys left out.
- RowCacheTheory.SetThenRead: stated for values other than null, for the same reason, and for values that the library
  reads back; `SetThenText` says without the latter what the row's text is.
- Frame time-outs are losses of a frame at any time.
- json_set through a dotted path and json_erase, which only dotted keys need.
- Strings of 2^31 characters or more in base64_decode, whose length is kept in an int.
- split_first, split_last, split_second and replace_any: easy members.
- AuthData: reset(email), hash, token and token_email, which do not touch a record's lock or password; the token field.
- AuthStore.AuthData.Activate: an empty e-mail is excluded, for which the driver is given the key ".status".
- The data driver below AuthData is a map from keys to records, so its caching of dotted keys is not part of this model.
- Sessions, RPC, ESMTP, views, plugins, media, the MongoDB and file drivers: wrappers over libraries.
