# A verified model of five cores of the SQLite driver

The driver carries the ciphers, hashes and the random generator of libtomcrypt, a JSON library for one of its
examples, and its own protocols around SQLite. This project models five parts of it in Dafny and proves what they are
for. The compiled configuration is modelled: the portable macros, 64-bit `unsigned long`, the large tables and the
unrolled loops; the small-code loops of AES are modelled beside the unrolled ones, which they agree with.

**AES and CBC** (`GaloisField`, `SBoxTables`, `Words`, `Fips197`, `Fips197Laws`, `Fips197Standard`, `AesTables`,
`Aes`, `Cbc`, `AesCbc`). `Fips197` states the cipher, its inverse, the equivalent inverse cipher and the key expansion
as the standard writes them. `AesTables` defines the lookup tables by the formulas at the head of `aes_tab.h`, over
the S-box literals. `Aes` has the key set-up and the block operations on words in arrays, proved equal to the
standard; `Fips197Laws` proves that the cipher and its inverse undo one another, from the algebra of GF(2^8) up, and
`Fips197Standard` states the cipher once more as the pseudo-code of the standard, with every number written out. `Cbc`
chains any block cipher, in place or not.

**SHA, HMAC and PBKDF2** (`HashCore`, `Sha2`, `Sha256`, `Sha512`, `Sha1`, `Hmac`, `Pbkdf2`). `HashCore` is the
streaming interface for any compression function, against the hash of a whole message. `Sha2` and `Sha1` prove the
compressors, which rename their variables instead of moving them, equal to the rounds of FIPS 180-4. `Hmac` and
`Pbkdf2` are built on any such hash and rest on the contract of the layer below.

**Fortuna** (`FortunaLog`, `FortunaCounter`, `Fortuna`, `FortunaLaws`). The generator is a class whose ghost log
records every accepted event and every reseed. Its invariant ties each pool to the log, so that the results about logs
hold in every state of every run. The clock is a parameter of the operations that read it.

**picojson** (`Json`, `JsonForms`, `JsonRoundTrip`, `JsonIntegers`, `JsonInput`, `JsonText`). `Json` has the values,
the text of a value, and the grammar of the parser as functions. `JsonInput` and `JsonText` are the parser over its
push-back input, and the serializer onto its output, proved equal to those functions on every input. A byte is a
character, and nothing depends on how large characters are; numbers are opaque, given by what prints them and what
reads them, and `JsonIntegers` is the case of integers in decimals, as whole numbers below 2^53 are printed.

**Driver protocols** (`UnlockNotify`, `UnlockRuns`, `StatementArgs`). The unlock notification is a state machine over
the steps of all waiters and callbacks, whose steps on the table are those of a class; `UnlockRuns` has the results
about whole runs. `StatementArgs` distributes the arguments of one call over several statements and binds them.

`Blocks`, `Buffers`, `Options` and `Errors` hold what several parts share: whole numbers of blocks, writing into part
of a buffer, values that may be missing, and error codes. What the contracts name is characterised once more by
separate lemmas: by runs of the pseudo-code of the standards, by numbers written out, or by what undoes it. An error
status that a call returns is part of its contract, and a call that fails changes nothing.

## What the code does that its documentation does not say

- The overflow test of `HASH_PROCESS` does not count the bytes that wait in the buffer, and takes the bits of a chunk
  mod 2^64. It never refuses a message in range, but it accepts some that are out of range. `OverflowTest` states
  exactly what it decides, and `TestIsRight` when that is right.
- The unrolled loops of AES run 2*(Nr/2) rounds. The set-up makes only even Nr, for which that is Nr.
- picojson returns a position one too far exactly when the text is that of a number with more text behind it, because
  the character behind a number is read before it is given back. `ParseText` tests the text for this, and
  `NumberThenSpace` is an input.
- A picojson number comes back exactly when the text printed for it is numeric and denotes it. Integers in decimals
  do; the texts of infinities and NaN do not (`NotFinite`).
- `fortuna_update_seed` changes the key but not the schedule, so the next block is encrypted under the old key. A
  ghost flag marks this in the invariant.
- The handles of the unlock notification are a Go uint that counts round. A registration can lead to an unsafe step if
  and only if its handle is still in use (`SafeIffFresh`). The first 2^64 registrations never meet such a handle, and
  the one after them can (`HandlesComeRound`).
- exec and query take as many arguments for a statement as it has parameters, named ones too, before they add the
  named ones again. So one named argument does not serve two statements that share its name: the call fails with too
  few arguments (`SharedNameFails`). All statements have enough if and only if their parameter counts together are at
  most the number of arguments (`AllHaveEnough`).
- A named argument can lose its parameter to an unnamed argument that stands behind it and has the number of the
  parameter. `NamedFinalValue` states exactly when.
- `pkcs_5_alg2` takes an iteration count below 1 as 1, and counts blocks in 32 bits, so that an output of more than
  2^32 blocks repeats itself (`BlocksRepeat`).

## Model

| member | source | states |
|---|---|---|
| SBoxTables.SBoxIsStandard | aes_tab.h:5-15 | The S-box literals are the affine image of the inverse in GF(2^8), section 5.1.1 of FIPS 197: multiplying a byte by the inverse affine image of its S-box value gives 1, except that 0 goes to 0. |
| SBoxTables.InvSBoxOfSBox | aes_tab.h:229-294 | The Td4 table undoes the S-box at every byte. |
| SBoxTables.SBoxOfInvSBox | aes_tab.h:229-294 | The S-box undoes the Td4 table at every byte. |
| Fips197Standard.SBoxEntries | aes_tab.h:92-157 | The S-box holds {63} for {00} and {16} for {ff}, and {ed} for {53} as section 5.1.1 of FIPS 197 gives for example. |
| Fips197Standard.Doubling | aes_tab.h:5-15 | Multiplication by {02} doubles a byte and takes away {1b} when it overflows, section 4.2.1 of FIPS 197; {03} adds the byte itself. |
| AesTables.TablesAreRotations | aes_tab.h:300-313 | The tables TE1 to TE3, TD1 to TD3 and Tks1 to Tks3 are the byte rotations of TE0, TD0 and Tks0 that the small code computes instead. |
| AesTables.RconTableIsRcon | aes_tab.h:1015-1019 | The rcon literals are the round constants x^(i-1) of section 5.2 of FIPS 197. |
| Fips197Standard.RconIsConstant | aes_tab.h:1015-1019 | The round constants are 0x01000000, 0x02000000 and so on to 0x80000000, 0x1b000000 and 0x36000000, for rounds 1 to 10. |
| AesTables.SetupMixSubstitutes | aes.c:86-92 | setup_mix is SubWord after RotWord, and of a word turned back by eight bits it is SubWord alone. |
| AesTables.EncColumnMixes | aes.c:347-403 | Four lookups in Te0 to Te3 and a key word make a column of MixColumns over SubBytes and AddRoundKey. |
| AesTables.DecColumnMixes | aes.c:530-588 | Four lookups in Td0 to Td3 and a key word make a column of InvMixColumns over InvSubBytes and AddRoundKey. |
| AesTables.EncLastColumnSubstitutes | aes.c:411-438 | The masked lookups of the last round make a column of SubBytes and AddRoundKey. |
| AesTables.DecLastColumnSubstitutes | aes.c:594-622 | The masked Td4 lookups of the last round make a column of InvSubBytes and AddRoundKey. |
| AesTables.InvKeyWordMixes | aes.c:229-253 | The four Tks lookups of the decryption schedule are InvMixColumns of the key word. |
| AesTables.EncRoundIsRound | aes.c:309-340 | A round of table lookups is AddRoundKey of MixColumns of ShiftRows of SubBytes, section 5.1 of FIPS 197, for every state and key. |
| AesTables.DecRoundIsEqInvRound | aes.c:492-523 | A decryption round of table lookups is the round of the equivalent inverse cipher, section 5.3.5 of FIPS 197, for every state and key. |
| Aes.RijndaelKey.constructor | aes.c:114-133 | The schedules eK and dK are separate and hold 60 words each. |
| Aes.LoadKey | aes.c:134-178 | The key bytes are loaded as the first four, six or eight words of the schedule, and no other word is written. |
| Aes.Expand128 | aes.c:141-152 | The loop for 16-byte keys writes the 44 words of section 5.2 of FIPS 197, and no word of the schedule but those from 4 to 43. |
| Aes.Expand192 | aes.c:153-172 | The loop for 24-byte keys writes the 52 words of section 5.2 of FIPS 197, and no word of the schedule but those from 6 to 51. |
| Aes.Expand256 | aes.c:173-197 | The loop for 32-byte keys writes the 60 words of section 5.2 of FIPS 197, with SubWord alone half-way through each turn, and leaves the key words alone. |
| Aes.InverseSchedule | aes.c:205-264 | dK holds the round keys of eK in reverse, all but the first and the last put through InvMixColumns; it starts from the last round key of every key size; eK and what is behind the round keys in dK are unchanged. |
| Aes.Setup | aes.c:114-268 | The key set-up refuses exactly the wrong key sizes and round numbers, changing nothing, and otherwise leaves the FIPS 197 expansion and its decryption schedule, having written exactly 4(Nr+1) words of each. |
| Aes.EncryptRounds | aes.c:344-403 | The loop of two rounds an iteration runs 2*(Nr/2) - 1 full rounds of the cipher. |
| Aes.EncryptRoundsRolled | aes.c:309-340 | The rolled loop runs Nr - 1 full rounds of the cipher. |
| Aes.DecryptRounds | aes.c:527-588 | The decryption loop of two rounds an iteration runs 2*(Nr/2) - 1 rounds of the equivalent inverse cipher. |
| Aes.DecryptRoundsRolled | aes.c:492-523 | The rolled decryption loop runs Nr - 1 rounds of the equivalent inverse cipher. |
| Aes.EcbEncrypt | aes.c:280-441 | The unrolled form writes the cipher of FIPS 197 with 2*(Nr/2) rounds over any schedule and block, in place or not, and refuses exactly the round numbers outside 2 to 16. |
| Aes.EcbEncryptRolled | aes.c:291-441 | The rolled form writes the cipher of FIPS 197 with Nr rounds: for every even Nr it agrees with the unrolled one. |
| Aes.EcbDecrypt | aes.c:464-625 | The unrolled form writes the equivalent inverse cipher with 2*(Nr/2) rounds over any schedule and block. |
| Aes.EcbDecryptRolled | aes.c:475-625 | The rolled form writes the equivalent inverse cipher with Nr rounds: for every even Nr it agrees with the unrolled one. |
| Aes.ScheduledEncrypts | aes.c:134-202 | On a schedule that the set-up made, the cipher on eK is AES under the key. |
| Aes.ScheduledDecrypts | aes.c:205-264 | On a schedule that the set-up made, the equivalent inverse cipher on dK is the straightforward inverse cipher of section 5.3 of FIPS 197. |
| Aes.EncryptBlock | aes.c:280-441 | After the set-up for a key, encryption is the AES function of that key and the block. |
| Aes.DecryptBlock | aes.c:464-625 | After the set-up for a key, decryption is the inverse AES function of that key and the block. |
| Aes.ThereAndBack | aes.c:696-701 | Any number of encryptions in place, and as many decryptions, restore the block: the self-test loop, for every key and block. |
| Fips197Laws.ShiftRowsBytes | aes.c:309-340 | ShiftRows on the four column words, the order in which the rounds take their operands, moves byte r of column c to column c - r mod 4: section 5.1.2 of FIPS 197 on the 16 bytes. |
| Fips197Standard.SubWordForm | aes.c:86-92 | Every byte of a word goes through the S-box, in its place. |
| Fips197Standard.MixColumnForm | aes_tab.h:5-15 | A column is multiplied by the rows 02 03 01 01, 01 02 03 01, 01 01 02 03 and 03 01 01 02, section 5.1.3 of FIPS 197. |
| Fips197Standard.AddRoundKeyForm | aes.c:300-303 | Every column is added to a word of the round key. |
| Fips197Standard.XorWIs | aes.c:300-303 | Addition of words is exclusive or, bit by bit. |
| Fips197Standard.CipherIsRun | aes.c:291-441 | The cipher is any run of the pseudo-code of Figure 5 of FIPS 197: the states of its loop, one after the other, and the last round without mixing. |
| Fips197Standard.EncryptIsRun | aes.c:280-441 | AES is such a run of 10, 12 or 14 rounds from the columns that the 16 bytes of the block fill, stored in the same order. |
| Fips197Standard.ExpansionIsRun | aes.c:134-197 | The 44, 52 or 60 words of the schedule begin with the words of the key and go on as Figure 11 of FIPS 197 says, with the constants written out. |
| Fips197Laws.InvMixLinear | aes.c:209-264 | InvMixColumns is linear, which is why it can be applied to the round keys. |
| Fips197Laws.EqInvCipherIsInvCipher | aes.c:205-264 | Under a decryption schedule the equivalent inverse cipher equals the inverse cipher, for every state and number of rounds. |
| Fips197Laws.InvCipherOfCipher | aes.c:464-625 | The inverse cipher undoes the cipher, for every schedule, state and number of rounds. |
| Fips197Laws.CipherOfInvCipher | aes.c:280-441 | The cipher undoes the inverse cipher, for every schedule, state and number of rounds. |
| Fips197Laws.DecryptOfEncrypt | aes.c:690-695 | Decryption undoes encryption for every 16-, 24- and 32-byte key and every block. |
| Fips197Laws.EncryptOfDecrypt | aes.c:690-695 | Encryption undoes decryption for every 16-, 24- and 32-byte key and every block. |
| Cbc.DecryptedOfEncrypted | cbc_decrypt.c:56-80 | CBC decryption inverts CBC encryption for any invertible block cipher, IV and number of blocks, section 6.2 of NIST SP 800-38A. |
| Cbc.EncryptedInParts | cbc_encrypt.c:67-80 | Encrypting in two calls, the second from the IV that the first leaves, gives the same bytes as one call. |
| Cbc.DecryptedInParts | cbc_decrypt.c:72-80 | Decrypting in two calls, the second from the IV that the first leaves, gives the same bytes as one call. |
| Cbc.EncryptedBlock | cbc_encrypt.c:50-80 | Every ciphertext block is the encryption of the plaintext block plus the ciphertext block before it, or the IV. |
| Cbc.DecryptedBlock | cbc_decrypt.c:56-80 | Every plaintext block is the decryption of the ciphertext block, plus the ciphertext block before it, or the IV. |
| Cbc.XorBytesAre | cbc_encrypt.c:51-61 | Blocks are added byte by byte. |
| Cbc.SymmetricCbc.Start | cbc_start.c:22-47 | The start copies the IV and takes the cipher and its block length; a refused key changes nothing. |
| Cbc.SymmetricCbc.Encrypt | cbc_encrypt.c:21-83 | The in-place chaining writes the CBC ciphertext of section 6.2 of NIST SP 800-38A and leaves its last block as IV, also when the output is the input or lies before it; a bad block length or a partial block is refused with nothing changed. |
| Cbc.SymmetricCbc.Decrypt | cbc_decrypt.c:21-82 | The same for decryption, which also refuses blocks longer than its 16-byte buffer. |
| AesCbc.AesIsInvertible | aes.c:280-625 | AES under any key is an invertible block cipher in the sense of the CBC results. |
| AesCbc.CipherIsAes | aes.c:280-625 | What the cipher of the descriptor encrypts AES decrypts, and what it decrypts AES encrypts. |
| AesCbc.SetupAccepts | aes.c:120-133 | The set-up accepts 16, 24 and 32 key bytes with 10, 12 and 14 rounds, or with 0 for the default. |
| AesCbc.InPlaceRoundTrip | cbc_encrypt.c:50-81 | With AES, encrypting a buffer in place and decrypting it in place restores it, and both sides end with the same IV. |
| HashCore.FoldSum | tomcrypt_private.h:96-117 | Compressing whole blocks one after the other does not depend on where the input is cut. |
| HashCore.PaddingLength | sha256.c:243-265 | The padding is the least that completes a block: the rest of the message and the padding make one block if the length field fits, and two otherwise. |
| HashCore.PaddingTellsMessagesApart | sha256.c:240-265 | The padding map of sections 5.1.1 and 5.1.2 of FIPS 180-4 is injective on messages shorter than 2^64 bits. |
| HashCore.PaddedIs | sha256.c:231-265 | The padded message is the shortest whole number of blocks that is the message, the byte 0x80, zeros, and the bit length in eight bytes, the most significant first; there is no other of that form. |
| HashCore.DigestIsChain | sha256.c:213-275 | The digest is the output for the last of any chain of values that starts with the initial one and compresses the blocks of the padded message in order. |
| HashCore.OverflowTest | tomcrypt_private.h:93-95 | What the overflow test decides, for every length field and chunk: it refuses exactly when the bits of the chunk, mod 2^64, do not fit above the bits of the whole blocks. |
| HashCore.TestIsRight | tomcrypt_private.h:93-95 | Below 2^61 bytes in whole blocks and in the chunk, the test refuses exactly the messages that are out of range, if and only if it is not the bytes waiting in the buffer alone that take the message out of range. |
| HashCore.InRangeIsAccepted | tomcrypt_private.h:93-95 | No message shorter than 2^64 bits is refused, however it is cut. |
| HashCore.OutOfRangeCanBeAccepted | tomcrypt_private.h:93-95 | The test is not exact: inputs that exceed 2^64 bits and are accepted. |
| HashCore.BlocksLeaveRoom | tomcrypt_private.h:93-95 | A chunk shorter than 64 bytes is never refused. |
| HashCore.HashState.constructor | sha256.c:196-211 | A new state is valid and has absorbed nothing. |
| HashCore.HashState.Init | sha256.c:196-211 | init returns any state to that of nothing absorbed. |
| HashCore.HashState.Process | tomcrypt_private.h:83-120 | HASH_PROCESS appends the chunk to what is absorbed, and keeps the invariant: fewer bytes pending than a block, the length field 8 times the compressed bytes mod 2^64, the chaining value of the whole blocks. It returns exactly the stated errors, with nothing changed. |
| HashCore.HashState.Mark | sha256.c:243-256 | The 1 bit is appended, and a block compressed early exactly when the pending bytes reach the length field. |
| HashCore.HashState.Pad | sha256.c:240-265 | The in-place padding compresses the message followed by the padding of FIPS 180-4, for every number of pending bytes. |
| HashCore.HashState.Done | sha512.c:198-247 | done writes the digest of what was absorbed, and the length, the threshold and the error test are those of the code. |
| HashCore.HashPieces | tomcrypt_private.h:83-120 | For every way to cut a message shorter than 2^64 bits, with empty pieces, init, process and done give its digest and nothing is refused. |
| Sha2.FillSchedule | sha256.c:77-85 | The message schedule holds the words of section 6.2.2 of FIPS 180-4. |
| Sha2.Rnd | sha512.c:124-128 | A round that replaces variables d and h in place is the shifting round of FIPS 180-4, if every variable takes the next slot. |
| Sha2.EightRounds | sha512.c:130-139 | Eight rounds with the names rotated are eight rounds of FIPS 180-4 with every variable back in its slot. |
| Sha2.CompressInPlace | sha512.c:94-149 | The register-renaming compressor is the compression function of sections 6.2.2 and 6.4.2 of FIPS 180-4, for every chaining value and block. |
| Sha2.CompressIsRun | sha256.c:63-179 | The compression function is any computation of section 6.2.2 of FIPS 180-4: the words of the schedule, the variables before each round, T1 and T2, and the sums at the end. |
| Sha256.ChIsChoice | sha256.c:50-50 | The rewritten Ch is the standard one. |
| Sha256.MajIsMajority | sha256.c:51-51 | The rewritten Maj is the standard one. |
| Sha256.FunctionsAgree | sha256.c:50-57 | All six functions of SHA-256 equal the standard ones at every word. |
| Sha256.ShaFunctions | sha256.c:50-57 | The algorithm is made of the standard functions, addition of words and the table of constants. |
| Sha256.ChoiceAndMajority | sha256.c:50-51 | Ch takes the bits of y where those of x are set, and of z elsewhere; Maj has the bits that most of the three have. |
| Sha256.Rotations | sha256.c:52-57 | The other functions are the sums of rotations and shifts of the standard, as shifts. |
| Sha256.KIsCubeRoots | sha256.c:107-170 | Section 4.2.2 of FIPS 180-4: every constant is the first 32 bits of the fractional part of the cube root of its prime. |
| Sha256.InitialIsSquareRoots | sha256.c:202-209 | The initial hash value is the first 32 bits of the fractional parts of the square roots of the first eight primes. |
| Sha256.WordsInOrder | sha256.c:77-80 | The words of a block and the bytes of the hash are in order. |
| Sha256.CompressAt | sha256.c:63-179 | s_sha256_compress is the compression function of SHA-256, on every state and every block of a buffer. |
| Sha256.CompressBlockIsRun | sha256.c:63-179 | The compression of a block is any computation of the standard over its words, added to the chaining value. |
| Sha256.Sha256IsHash | sha256.c:196-275 | SHA-256 is a hash in the sense of the streaming and HMAC results. |
| Sha512.ChIsChoice | sha512.c:75-75 | The rewritten Ch is the standard one, on 64-bit words. |
| Sha512.MajIsMajority | sha512.c:76-76 | The rewritten Maj is the standard one, on 64-bit words. |
| Sha512.FunctionsAgree | sha512.c:75-82 | All six functions of SHA-512 equal the standard ones at every word. |
| Sha512.ShaFunctions | sha512.c:75-82 | The algorithm is made of the standard functions, addition of words and the table of constants. |
| Sha512.ChoiceAndMajority | sha512.c:75-76 | Ch takes the bits of y where those of x are set, and of z elsewhere; Maj has the bits that most of the three have. |
| Sha512.Rotations | sha512.c:77-82 | The other functions are the sums of rotations and shifts of the standard, as shifts. |
| Sha512.KIsCubeRoots | sha512.c:31-72 | Section 4.2.3 of FIPS 180-4: every constant is the first 64 bits of the fractional part of the cube root of its prime. |
| Sha512.InitialIsSquareRoots | sha512.c:172-179 | The initial hash value is the first 64 bits of the fractional parts of the square roots of the first eight primes. |
| Sha512.WordsInOrder | sha512.c:101-103 | The words of a block and the bytes of the hash are in order. |
| Sha512.CompressAt | sha512.c:88-149 | s_sha512_compress is the compression function of SHA-512, on every state and every block of a buffer. |
| Sha512.CompressBlockIsRun | sha512.c:88-149 | The compression of a block is any computation of the standard over its words, added to the chaining value. |
| Sha512.Sha512IsHash | sha512.c:167-247 | SHA-512 is a hash in the sense of the streaming and HMAC results. |
| Sha1.F0IsCh | sha1.c:31-31 | The rewritten F0 is Ch. |
| Sha1.F2IsMaj | sha1.c:33-33 | The rewritten F2 is Maj. |
| Sha1.MacroIsStep | sha1.c:66-69 | The FF macro of a quarter makes the round of section 6.1.2 of FIPS 180-4, for every state and word. |
| Sha1.RoundFunctions | sha1.c:31-34 | The round function is Ch, Parity, Maj and Parity, for 20 rounds each. |
| Sha1.ChoiceAndMajority | sha1.c:31-34 | Ch, Maj and Parity on the bits. |
| Sha1.Rotations | sha1.c:66-69 | The rotations to the left by 1, 5 and 30, as shifts, and addition of words. |
| Sha1.KIsSquareRoots | sha1.c:66-69 | Section 4.2.1 of FIPS 180-4: the four constants are the square roots of 2, 3, 5 and 10 in units of 2^-30, rounded down. |
| Sha1.InitialBytes | sha1.c:160-164 | The bytes of the initial hash value, each word from its lowest byte on, are 01 23 to ef, fe to 10, and f0 e1 d2 c3. |
| Sha1.OutputInOrder | sha1.c:223-226 | The words of the hash are stored in order. |
| Sha1.Expand | sha1.c:47-62 | The message schedule holds the words of section 6.1.2 of FIPS 180-4. |
| Sha1.FiveRounds | sha1.c:91-97 | Five rounds with the names rotated are five rounds of FIPS 180-4 with every variable under its own name again. |
| Sha1.CompressAt | sha1.c:39-140 | s_sha1_compress is the compression function of SHA-1, on every state and every block of a buffer. |
| Sha1.CompressBlockIsRun | sha1.c:39-140 | The compression of a block is any computation of section 6.1.2 of FIPS 180-4: the words of the schedule, the five variables before each round, and the sums at the end. |
| Sha1.Sha1IsHash | sha1.c:157-231 | SHA-1 is a hash in the sense of the streaming and HMAC results. |
| Words.WordCounts | tomcrypt_macros.h:81-88 | LOAD32H makes the number that four bytes denote, the first one counting most. |
| Words.Word64Counts | tomcrypt_macros.h:39-50 | LOAD64H makes the number that eight bytes denote, and STORE64H stores those bytes. |
| Hmac.HashMemory | hash_memory.c:20-58 | The one-shot hash is the digest of the input, or reports a short output buffer with the size it needs; the input is never refused. |
| Hmac.HmacState.NormaliseKey | hmac_init.c:55-71 | The key block of section 2 of RFC 2104: long keys hashed, short ones filled with zeros. |
| Hmac.HmacState.Init | hmac_init.c:22-92 | The initialised state has absorbed K xor ipad for the normalised key; only the empty key is refused. |
| Hmac.HmacState.Process | hmac_process.c:19-28 | The text grows by the chunk, or the chunk is refused by the overflow test of the hash. |
| Hmac.HmacState.Done | hmac_done.c:20-93 | The output is the first min(hLen, outlen) bytes of H(K xor opad, H(K xor ipad, text)). |
| Hmac.HmacMemory | hmac_memory.c:23-73 | The one-shot form gives the same code, also from a buffer into itself, and fails exactly as stated with the output unchanged. |
| Hmac.MacPieces | hmac_process.c:19-28 | For every way to cut a text, the streaming form gives the code of section 2 of RFC 2104. |
| Hmac.MacOfBlock | hmac_init.c:71-74 | For a key of exactly one block, the code is the digest of the key changed by 0x5c and of the digest of the key changed by 0x36 and the text. |
| Hmac.MacOfShort | hmac_init.c:67-69 | Zeros behind a key shorter than a block make no difference. |
| Hmac.MacOfLong | hmac_init.c:57-62 | A key longer than a block is as good as its digest. |
| Pbkdf2.FirstPrf | pkcs_5_2.c:62-82 | The first value of a block is the PRF of the salt followed by the block number. |
| Pbkdf2.Iterate | pkcs_5_2.c:84-93 | The iterations computed over buf[0] in place and added into buf[1] make T_i of section 5.2 of RFC 8018; a count below 1 acts as 1. |
| Pbkdf2.Alg2 | pkcs_5_2.c:23-114 | The output is the first outlen bytes of T_1, T_2 and so on, for every password, salt, count and length; it fails exactly as stated, with the output unchanged. |
| Pbkdf2.KeyStartsStream | pkcs_5_2.c:95-101 | The key of n bytes is the start of any T_1 to T_k that are at least as long. |
| Pbkdf2.ShorterKey | pkcs_5_2.c:95-101 | A shorter key is the start of a longer one. |
| Pbkdf2.BlockIsRun | pkcs_5_2.c:62-93 | T_i is what any computation of section 5.2 of RFC 8018 gives: U_1 from the salt followed by the four bytes of i, each next U from the one before, and their sums byte by byte. |
| Pbkdf2.KeyByte | pkcs_5_2.c:95-101 | Every byte of the key is a byte of its block, by its place. |
| Pbkdf2.IntIsNumber | pkcs_5_2.c:65-67 | The four bytes of a block number are that number if and only if it is below 2^32, as RFC 8018 allows. |
| Pbkdf2.BlocksRepeat | pkcs_5_2.c:65-67 | The block number is counted in 32 bits: block i + 2^32 of a longer output is block i again, for every password, salt and count. |
| FortunaLog.ScanIsDivisibility | fortuna.c:123-143 | The scan of the bits of the reseed number that stops at the first one set finds exactly the powers of two that divide it. |
| FortunaLog.InPoolIff | fortuna.c:124-142 | A pool holds an event exactly when the event went to it and no later reseed has a number divisible by 2^k. |
| FortunaLog.ExactlyOnce | fortuna.c:121-143 | Over every run, an accepted event is in its own pool and nowhere else, or was folded into exactly one reseed. |
| FortunaLog.ContentIsFrames | fortuna.c:262-276 | The bytes of a pool are the frames of its events, in order. |
| FortunaLog.Pow2Is | fortuna.c:123-143 | The powers of two by which pools are drained, written out. |
| FortunaLog.FrameForm | fortuna.c:262-272 | A frame is the source, the number of data bytes, and the data. |
| FortunaLaws.InPoolRises | fortuna.c:262-276 | The events of a pool are in the order of the run. |
| FortunaLaws.FramesInOrder | fortuna.c:262-276 | The frame of a later event comes behind those of the earlier ones. |
| FortunaLaws.Pool0DataIs | fortuna.c:273-275 | The count of pool 0 is the number of its bytes without the heads of its frames. |
| FortunaLaws.ReseedsAre | fortuna.c:121-161 | The reseed number counts the reseeds of the run. |
| FortunaCounter.BlockCounts | fortuna.c:56-66 | After c increments the IV is the number c mod 2^128, little-endian. |
| FortunaCounter.BlocksDiffer | fortuna.c:56-66 | Within 2^128 increments no counter block comes twice. |
| FortunaCounter.BlockByte | fortuna.c:56-66 | Byte i of the counter block is digit i of the counter mod 2^128, in base 256. |
| FortunaCounter.UpdateIv | fortuna.c:56-66 | The loop that carries and stops early adds one to the IV. |
| Fortuna.Prng.Start | fortuna.c:217-250 | A started generator has empty pools, a zero key and counter, and is not ready. |
| Fortuna.Prng.Add | fortuna.c:252-276 | The frame of source, length and at most 32 bytes goes to the pool, and is logged. |
| Fortuna.Prng.AddEntropy | fortuna.c:313-333 | The pools take turns: event n goes to pool n mod 32. |
| Fortuna.Prng.AddRandomEvent | fortuna.c:287-304 | The frame goes to the pool that the caller names. |
| Fortuna.Prng.DrainPools | fortuna.c:123-143 | Exactly the pools x with 2^x dividing the reseed number are emptied, and their digests follow one another in the seed. |
| Fortuna.Prng.Reseed | fortuna.c:96-170 | The new key is the hash of the old one and the seed, it is scheduled, the counter goes up by one and the reseed is logged; at the time of the last reseed nothing changes. |
| Fortuna.Prng.Ready | fortuna.c:340-358 | The generator becomes ready and reseeds, unless the clock shows the second time what it showed the first time less one. |
| Fortuna.Prng.Fill | fortuna.c:393-409 | The output is the encryption of consecutive counters, cut to length, and no counter is used twice. |
| Fortuna.Prng.Read | fortuna.c:367-428 | A read of n bytes takes ceil(n/16) + 2 counters, leaves the next two blocks as the key and its schedule in place, reseeds first exactly when pool 0 has 64 bytes at a new time, and gives nothing exactly when nothing is asked for, or it is not ready, or the reseed count mod 2^64 is zero. |
| Fortuna.Prng.UpdateSeed | fortuna.c:180-210 | The key becomes the hash of the key and the input, the counter goes up by one, and the schedule stays that of the old key. |
| Fortuna.PoolHoldsPending | fortuna.c:262-276 | In every state of every run, a pool is the frames of the events pending in it. |
| Fortuna.NoBlockTwice | fortuna.c:396-416 | In every run of fewer than 2^128 increments since the start, no counter block is encrypted twice. |
| FortunaLaws.StreamDecrypts | fortuna.c:393-409 | Every whole block of the output, decrypted with AES under the key, is the counter of its place. |
| FortunaLaws.StreamStarts | fortuna.c:404-409 | A shorter output is the start of a longer one. |
| FortunaLaws.NextKeyDecrypts | fortuna.c:411-416 | Both halves of the key that a read leaves, decrypted under the key before, are the next two counters. |
| FortunaLaws.BlocksHold | fortuna.c:396-409 | A read takes the least number of blocks that holds its bytes. |
| FortunaLaws.RangeCounts | fortuna.c:396-416 | The counters of a read follow one another. |
| FortunaLaws.KeyOfReseed | fortuna.c:110-160 | The key after reseed r is the SHA-256 digest of the old key and of the digests of the first t pools, each of the frames pending in it, where 2^(t-1) is the largest of the 32 powers that divides r. |
| FortunaLaws.JoinedByte | fortuna.c:137-139 | The digests follow one another, 32 bytes each. |
| JsonText.SerializeStr | _example/mod_vtable/picojson.h:287-313 | The string serializer appends the quoted and escaped string to the output. |
| JsonText.SerializeTo | _example/mod_vtable/picojson.h:315-352 | The recursive serializer appends the text of the value to the output. |
| JsonInput.Input.Getc | _example/mod_vtable/picojson.h:368-382 | The next character is read, or -1 at the end; the line counts the newlines passed. |
| JsonInput.Input.Ungetc | _example/mod_vtable/picojson.h:383-388 | The character just read is given back; the assertion that none is given back twice holds at every call, on every text. |
| JsonInput.Input.Expect | _example/mod_vtable/picojson.h:400-407 | White space is consumed, and the character if it is the expected one. |
| JsonInput.Input.Match | _example/mod_vtable/picojson.h:408-418 | The pattern is consumed exactly when the input starts with it; otherwise what agrees with it is. |
| JsonInput.Input.ParseQuadHex | _example/mod_vtable/picojson.h:421-440 | Four hexadecimal digits of either case are read, or -1 is returned. |
| JsonInput.Input.ParseCodepoint | _example/mod_vtable/picojson.h:442-481 | The escape, with its second half if it is a surrogate, is turned into UTF-8, and a lone or wrong surrogate fails. |
| JsonInput.Input.ParseString | _example/mod_vtable/picojson.h:483-519 | On every text, the string parser accepts and returns what the grammar of strings says. |
| JsonInput.Input.ParseNumber | _example/mod_vtable/picojson.h:559-574 | The longest run of number characters is read; one character behind it is read and given back. |
| JsonInput.Input.ParseArray | _example/mod_vtable/picojson.h:521-536 | The array parser returns what the grammar of arrays says. |
| JsonInput.Input.ParseObject | _example/mod_vtable/picojson.h:538-557 | The object parser returns what the grammar of objects says, a later member replacing an earlier one with its key. |
| JsonInput.Input.Parse | _example/mod_vtable/picojson.h:576-611 | On every text, the recursive parser over the push-back input returns the value and the rest that the grammar gives, and only a number leaves a character given back. |
| JsonRoundTrip.StringBack | _example/mod_vtable/picojson.h:483-519 | Every string, of any bytes, is read back from its escaped form. |
| JsonForms.HexValues | _example/mod_vtable/picojson.h:421-440 | The digits 0 to 9, A to F and a to f have the values 0 to 15, and no other character is a digit. |
| JsonForms.CodepointRead | _example/mod_vtable/picojson.h:442-481 | Every code point, written as one escape or as a surrogate pair with digits of either case, is read as its UTF-8 bytes. |
| JsonForms.LoneSurrogate | _example/mod_vtable/picojson.h:447-461 | A low surrogate alone, and a high one without an escape behind it, are refused. |
| JsonForms.EscapesRead | _example/mod_vtable/picojson.h:491-511 | The eight escapes of one letter stand for their characters, and every other one is refused. |
| JsonForms.PlainRead | _example/mod_vtable/picojson.h:483-519 | Every other character stands for itself, except that control characters are refused and the quote ends the string. |
| JsonForms.EscapesWritten | _example/mod_vtable/picojson.h:287-313 | The short escapes, six characters in lower-case digits for the other control characters, and the character itself otherwise. |
| JsonForms.EscapedSum | _example/mod_vtable/picojson.h:287-313 | A string is written character by character. |
| JsonRoundTrip.Utf8Encodes | _example/mod_vtable/picojson.h:464-479 | The bytes pushed are the shortest UTF-8 sequence of the code point, and decode to it. |
| JsonRoundTrip.NumberBack | _example/mod_vtable/picojson.h:262-271 | A printed number comes back if and only if its text is numeric and denotes it. |
| JsonRoundTrip.NotFinite | _example/mod_vtable/picojson.h:262-271 | The texts printed for infinities and for what is not a number do not come back. |
| JsonIntegers.IntegerPrintsBack | _example/mod_vtable/picojson.h:262-271 | Every integer, printed in decimals, prints back. |
| JsonRoundTrip.ValueBack | _example/mod_vtable/picojson.h:576-611 | The text of a value, before any text that cannot continue it, is read back as that value, and nothing more is consumed. |
| JsonRoundTrip.RoundTrip | _example/mod_vtable/picojson.h:287-352 | Parsing the text of any tree whose numbers print back returns the tree and consumes all of the text. |
| JsonIntegers.IntegerTreesComeBack | _example/mod_vtable/picojson.h:287-352 | Every tree whose numbers are integers is read back whole from its text, with no condition on the numbers. |
| JsonRoundTrip.TextsDiffer | _example/mod_vtable/picojson.h:314-352 | Different trees have different texts. |
| JsonRoundTrip.LookupInserted | _example/mod_vtable/picojson.h:664-669 | Assigning to a key changes what that key finds, and nothing else. |
| JsonRoundTrip.ParsedIsWellFormed | _example/mod_vtable/picojson.h:630-671 | Whatever text is parsed, the keys of every object in the value rise strictly. |
| JsonForms.ValueForms | _example/mod_vtable/picojson.h:315-352 | What is written for null, true, false, numbers, strings, and empty arrays and objects. |
| JsonForms.ArrayForm | _example/mod_vtable/picojson.h:322-333 | One more item is written behind a comma, before the closing bracket. |
| JsonForms.ObjectForm | _example/mod_vtable/picojson.h:334-347 | One more member is written as its key in quotes, a colon and its value, behind a comma, before the closing brace. |
| JsonForms.SpaceSkipped | _example/mod_vtable/picojson.h:389-407 | Space, tab, line feed and carriage return are skipped before every value and mark, and nothing else is. |
| JsonForms.ValueBegins | _example/mod_vtable/picojson.h:559-611 | The characters that numbers are made of, and those that a value can begin with. |
| JsonForms.LessIsLexicographic | _example/mod_vtable/picojson.h:69-69 | Keys are in lexicographic order: the first character that differs decides, or the length. |
| JsonForms.LinesCounted | _example/mod_vtable/picojson.h:368-382 | A line feed, and nothing else, ends a line. |
| JsonText.ParseText | _example/mod_vtable/picojson.h:711-727 | The position returned is the end of the value if and only if the text is not that of a number with more text behind it; then it is one too far. |
| JsonText.NumberThenSpace | _example/mod_vtable/picojson.h:711-727 | For the text of a one and a space, the position returned is 2, behind the space. |
| JsonText.PrintAndParse | _example/mod_vtable/picojson.h:354-358 | What is printed is parsed to an equal value, and the position returned is the end of the text. |
| UnlockNotify.Table.Add | sqlite3_opt_unlock_notify.go:35-42 | The channel is entered under the sequence number, which then counts on as a Go uint. |
| UnlockNotify.Table.Remove | sqlite3_opt_unlock_notify.go:44-48 | The entry is gone, and the others stay. |
| UnlockNotify.Process.TakeAdd | sqlite3_opt_unlock_notify.go:76-77 | A waiter that runs add on the table makes the step of the state machine, and keeps the handle. |
| UnlockNotify.Process.TakeRemove | sqlite3_opt_unlock_notify.go:44-48 | A waiter that runs remove on the table makes the step of the state machine. |
| UnlockNotify.Process.TakeGet | sqlite3_opt_unlock_notify.go:50-69 | A callback that runs get on the table makes the step of the state machine if that is safe, and otherwise finds nothing and panics. |
| UnlockNotify.SafeSteps | sqlite3_opt_unlock_notify.go:60-93 | What a safe step is: a look-up finds an entry and an argument not freed, a send finds an open and empty channel, and nothing is freed or closed twice. |
| UnlockNotify.WaiterEffects | sqlite3_opt_unlock_notify.go:72-93 | A refused registration goes on to the deferred calls, an accepted one waits for its callback, and the wait takes one token. |
| UnlockNotify.CallbackEffects | sqlite3_opt_unlock_notify.go:60-70 | A callback finds the channel that its handle leads to, and leaves one more token there. |
| UnlockNotify.StepKeeps | sqlite3_opt_unlock_notify.go:35-93 | Every step of any waiter or callback keeps the invariant, and neither misses an entry, nor blocks in the send, nor sends on a closed channel, nor reads a freed argument, if a new handle is not in use. |
| UnlockRuns.SafeIffFresh | sqlite3_opt_unlock_notify.go:35-93 | After a registration, every continuation of the run in which later handles are not in use is safe, if and only if its own handle was not in use. |
| UnlockRuns.InvariantIsSafe | sqlite3_opt_unlock_notify.go:60-93 | From every state with the invariant, in every interleaving of any length, each step is safe as long as no registration meets a handle that is still in use. |
| UnlockRuns.EarlyRunIsSafe | sqlite3_opt_unlock_notify.go:60-93 | In every interleaving with at most 2^64 registrations, all handles are new, each step is safe, and the invariant holds throughout. |
| UnlockRuns.HandlesComeRound | sqlite3_opt_unlock_notify.go:35-42 | The bound is sharp: a run of 2^64 registrations, all with new handles, leads to a state where the next handle is in use and from which an unsafe step is reached. |
| UnlockRuns.TokensCounted | sqlite3_opt_unlock_notify.go:64-93 | Over every fresh run from any state with the invariant, a waiter takes a token exactly when it passes its wait, and its callback sends one exactly when it completes. |
| UnlockRuns.OneTokenEach | sqlite3_opt_unlock_notify.go:72-93 | In every fresh run, a registered wait that is over has taken exactly one token and its callback has sent exactly one; a wait not registered takes none; and a finished wait has left no entry. |
| UnlockRuns.SendsOwn | sqlite3_opt_unlock_notify.go:64-69 | In every fresh run, a callback sends to the waiter that registered it, which waits with its channel open and empty: the send never blocks. |
| UnlockRuns.NoneIsStuck | sqlite3_opt_unlock_notify.go:60-93 | No wake-up is lost: in every fresh run, each wait that is not done can go on by its own next step or that of its callback, safely, and the run can be continued to the end of the wait unless that takes a handle in use. |
| UnlockRuns.CanFinish | sqlite3_opt_unlock_notify.go:60-93 | From every state with the invariant, a wait with its handle, or with a new one to take, ends by what is left of these nine steps, all safe: add, register, call back, look up, send, receive, free, remove, close. |
| UnlockRuns.HandlesDiffer | sqlite3_opt_unlock_notify.go:35-48 | In every fresh run, waiters that are in the table have different handles. |
| UnlockNotify.StepBlocking | sqlite3_opt_unlock_notify.c:12-35 | The retry loop waits and resets before each further step, and returns the result of the turn that ends it. |
| UnlockNotify.WaitsOn | sqlite3_opt_unlock_notify.c:15-25 | The loop waits on the code 6 with the extended code 6 + 256, and goes on if the wait answers 0. |
| StatementArgs.Select | sqlite3.go:808-824 | The arguments of a statement are its slice and the named ones that the test admits, numbered from 1. |
| StatementArgs.Bind | sqlite3.go:1854-1914 | The bind calls are those of each argument in order, by ordinal, or by name under each of the three prefixes, up to and including the first one that SQLite refuses. |
| StatementArgs.MadeForm | sqlite3.go:1868-1912 | Either all bind calls are taken, or those made are the ones up to and including the first that is not. |
| StatementArgs.Exec | sqlite3.go:796-837 | Statements are run in order with their arguments, up to the first one for which too few arguments are left, a bind call is refused, or the run fails; the status is decided by the statements and arguments exactly. |
| StatementArgs.AllHaveEnough | sqlite3.go:807-825 | No statement is refused for want of arguments, and so each is given every named argument, if and only if the parameter counts of all the statements together are at most the number of arguments: names that statements share count once for each. |
| StatementArgs.SharedNameFails | sqlite3.go:807-813 | One argument named a does not serve two statements with the parameter :a: the second has too few arguments. |
| StatementArgs.PositionalArgs | sqlite3.go:857-896 | Without names, parameter j of statement k gets the argument at the sum of the earlier parameter counts plus j - 1, and nothing else is bound. |
| StatementArgs.NamedSelected | sqlite3.go:870-881 | The test leaves out only arguments that are in the slice: every named argument reaches every statement for which enough arguments are left. |
| StatementArgs.NamedIsBound | sqlite3.go:1854-1866 | A named argument is bound wherever a statement with enough arguments has a parameter with its name under any prefix. |
| StatementArgs.NamedByPrefix | sqlite3.go:1854-1866 | A named argument is bound to each of :name, @name and $name that is a parameter. |
| StatementArgs.BoundFrom | sqlite3.go:1854-1911 | Nothing else is bound: every call is that of a named argument under one of the three prefixes, or of an unnamed one in the slice by its place. |
| StatementArgs.SelectedTwice | sqlite3.go:814-824 | A named argument from number na on is appended even if the slice holds it. |
| StatementArgs.OnlyOneName | sqlite3.go:1854-1866 | With distinct names, and different numbers for different parameter names, a parameter has at most one named argument, under any of the prefixes. |
| StatementArgs.NamedFinalValue | sqlite3.go:808-824 | After all bind calls, a named parameter has the value of the argument with its name, except exactly when an unnamed argument behind that one, in the slice alone, has the number of the parameter. |
| StatementArgs.NamedCanLose | sqlite3.go:1854-1911 | The exception occurs: for parameters `?, :a` and the arguments named a and unnamed, in that order, :a is bound to the unnamed one. |
| StatementArgs.UnnamedFinalValue | sqlite3.go:1868-1911 | A parameter that no argument names has the value of the unnamed argument with its number in the slice, or none. |

## Left out

- NULL arguments (LTC_ARGCHK), failed allocations, stack and memory cleaning, mutexes, and the block functions' own
  error returns, which cannot happen on a state that the set-up made.
- Registration and lookup of ciphers and hashes, accelerated versions, and the check that a hash block fits into the
  key buffer of an HMAC state, which no hash fails.
- The literals of the tables other than the S-box: they are defined by the formulas of the header.
- The ECB_DEC schedule under ENCRYPT_ONLY, the clean-stack wrappers, and the table Te4 of the small code.
- Memory that overlaps in other ways than stated: a CBC output that starts inside its input and behind its start, an
  output of PBKDF2 that is the password or the salt, and a hash input inside the hash state.
- Aes.EcbEncrypt: 16 rounds, which the guard accepts, need more words than the schedule has; the set-up makes at most
  14.
- Aes.EcbDecrypt: the same.
- Aes.EcbEncryptRolled: the same, for 15 rounds too.
- Aes.EcbDecryptRolled: the same, for 15 rounds too.
- Sha2.CompressInPlace: the 64 round lines of SHA-256 are modelled as the eight passes of eight rounds that they make,
  with the constants taken from the table of the small code, where they are the same; the rotated small-code loops are
  left out.
- HashCore.HashState.Process: the compressor is the function that the in-place methods `CompressAt` are proved to
  compute.
- Fortuna.Prng.Add: a pool is the bytes its hash has absorbed, since `BlocksLeaveRoom` shows that such short chunks
  are never refused; the error branches of the generator cannot be taken for the same reason.
- Fortuna: the AES schedule is represented by its key, and the time by a parameter. The counting rate limit, export,
  import and termination of the generator are not modelled.
- picojson: the printing and reading of numbers that are not whole, the text of error messages, the partial value
  after a failed parse, the other parse contexts, and the accessors of values.
- UnlockNotify: SQLite is represented by its callbacks, one for each successful registration; the callbacks of one
  invocation may come in any order here. The layout of the argument memory is not modelled, and a retry loop is given
  what SQLite answers. `_sqlite3_prepare_v2_blocking` is the same loop without the reset.
- StatementArgs: preparing, running and closing statements, and the reset before the bind calls; a statement is its
  parameter count, its names, which bind calls SQLite takes, and whether running it fails. An empty statement has no
  parameters. The types of bound values are not distinguished.
- Connections, DSN options, extensions, backup, hooks and virtual tables of the driver, and SQLite itself.
