# Verification of the botbrew crypto, version and image code

This project models five parts of the repository in Dafny and proves what they are for.

* **Montgomery RSA** (`Limbs` with `Congruence`, `Montgomery`, `Rsa`, `RsaExample`). The limb arithmetic of `rsa.c`
  for keys of any length: the accumulators, the lost carry and its cancellation, the bound that replaces full
  reduction, the cube by three Montgomery products, and the PKCS#1 v1.5 check (RFC 8017). `Montgomery` says on whole
  numbers what is computed exactly. Words are numbers below 2^32, and every truncation is written out.
* **DES and crypt(3)** (`WordBits`, `DesTables`, `Feistel`, `Fips46`, `DesMasks`, `DesKeys`, `DesRound`, `DesBoxes`,
  `DesMachine`, `DesText`, `Des`, `Ascii64`, `Places`, `Crypt`). `Fips46` is DES on bits as FIPS 46-3 describes it,
  with the salt of crypt(3); the class `Des.DesState` is the static state of `des.c`. Its `Valid()` says that the mask
  tables stand for their permutations, that both key schedules are those of the cached key, and that `saltbits` is
  that of the cached salt. Every function of `des.c` keeps it, so the result of `__des_crypt` depends on its arguments
  only, whatever calls came before; that of `encrypt` depends on its arguments and on the current key, which is the
  one an earlier `setkey` or `__des_crypt` left. Feistel inversion is proved once for an arbitrary round function. Key
  and salt of `crypt` are places in memory (`Places.Place`) and may lie in the static buffers that `crypt` returns.
* **Streaming hashes** (`Bytes`, `BlockHash`, `Fips180`, `Sha`, `Rfc1321`, `Md5Forms`, `Md5`, and on top of them
  `Md5CryptSpec`, `Md5CryptBuffer`, `Md5CryptImpl`). `Fips180` and `Rfc1321` are the standards; the classes carry a
  ghost `message`, all bytes absorbed so far. Both builds of `sha.c` and the four forms of the MD5 transform are
  modelled and agree.
* **Version order and package index** (`Lexicographic`, `VersionCompare`, `OpkgVersion`, `PackageIndex`). A version is
  mapped to a sequence of numbers, its key, and both comparators are the lexicographic order on keys, hence total
  preorders (the first one for numbers below 2^31). In `VersionCompare.Key` each run of non-digits gives the ranks of
  its characters (letters before everything else) closed by a 0, then come the number after it and 0, 1 or 2 for end,
  separator or other. In `OpkgVersion.PyKey` it is the ranks closed by a 0 and the number plus 1.
  `PackageIndex.Packages` keeps a ghost log of what was added.
* **Image writers** (`Cpio`, `ArchiveWalk`, `Mkbootfs`, `BootImage`). `Cpio` has the newc format with a plain reader,
  `ArchiveWalk` says which files are archived for a file system and in which order, and `Mkbootfs.Writer` is the
  program with its shared path buffers. `BootImage` packs a boot image and takes it apart again.

Loops and static state are methods, classes and arrays as in the sources; what they compute is said by functions,
about which the lemmas speak. Tables are functions by index. `hide` statements only keep proofs small.

Where code and documentation differ, the model follows the code:

* `RSA_verify` does not check that the signature s is below the modulus n, as section 8.2.2 of RFC 8017 does
  (`Rsa.RfcAccepts`). For s < n both decide alike (`Rsa.AgreesInRange`). For a modulus of at least half of R they
  differ exactly on the s >= n whose cube is the encoding (`Rsa.DiffersOutOfRange`), and there are such s beside every
  accepted one with s + n below R (`Rsa.AcceptsShifted`; `RsaExample.AcceptedExample` is a key with one). For s >= n
  and a modulus below half of R the result of `modpow3` can be too large by n: `Rsa.OutOfRangeExample` has n =
  859162111 and s = 3517157369.
* The copying loop of `__des_crypt` promises to shift each character up and pad with zeros, but a character 0x80 ends
  the key (`DesText.KeyIsPadded`, `DesText.KeyIsPaddedExample`).
* A setting of one letter other than the one for 0 gives a hash that is not its own setting (`DesText.SaltKept`,
  `DesText.SaltKeptExample`).
* The block loop of `__md5_Update` adds 63 to a 32-bit index. `Md5.IndexFits` is exactly the condition under which it
  stays inside its input (`Md5.IndexNeverWraps`, `Md5.IndexWraps`).
* A result of the MD5 form is its own salt only when it is copied. The call crypt(k, crypt(k, s)) passes the static
  buffer of `__md5_crypt` as the salt, which is overwritten before the rounds read it: the call then returns `$1$`,
  unless there is no true salt (`Crypt.CryptState.CryptOfCrypt`, `Md5CryptBuffer.NestedExample`). A password in that
  buffer is kept if and only if the salt is its own (`Md5CryptBuffer.PasswordInBuffer`). The DES form reads both
  arguments before it writes.
* `verrevcmp` cuts numbers off at LONG_MAX and returns the difference of two longs as an int. Below 2^31 nothing is
  lost (`VersionCompare.ComputedIsOrder`). With a long of 32 bits, as on the devices, all larger numbers are equal,
  among them timestamps (`VersionCompare.CutExample`). With 64 bits version 4294967296 equals 0, and the comparison
  has cycles (`VersionCompare.LongExample`). `VersionCompare.ComputedIf` says exactly when the result is the order.
* `versionsatisfied3` takes `<` and `>` for `<=` and `>=`, and `parseversion` accepts a version with a colon in front.
* `add_package` stores a package with a new name before it looks at its version, so with the empty version it stays in
  the index although an error is raised (`PackageIndex.NewNameFails`). The version `1:`, which cannot be compared with
  its like, replaces a held package of epoch 0 without any error (`PackageIndex.EmptyVersionReplaces`).
  `PackageIndex.Packages.AddPackage` says exactly when the index stays valid.
* `mkbootimg` pads after a second stage by the size of the ramdisk; `BootImage.EndsWithPage` says when the file still
  ends with a whole page.
* An entry named `TRAILER!!!` ends an archive for every reader (`Mkbootfs.TrailerExample`).
* The target of a symbolic link is cut off after 1024 bytes without any error (`ArchiveWalk.TruncatedWhole`).

## Model

| member | source | states |
|---|---|---|
| Rsa.SubM | cookbook/android-mkbootfs/source/libmincrypt/rsa.c:31-40 | the array loses exactly the modulus; a negative result wraps by R = 2^(32 len) |
| Rsa.GeM | cookbook/android-mkbootfs/source/libmincrypt/rsa.c:42-51 | true if and only if the number in the array is at least the modulus |
| Rsa.MontMulAdd | cookbook/android-mkbootfs/source/libmincrypt/rsa.c:53-76 | for any length and valid key the array holds exactly one Montgomery step on numbers (Montgomery.Step); c times 2^32 is congruent to old c + a b modulo n, and c < b + n is kept although c is not fully reduced |
| Montgomery.StepDivides | cookbook/android-mkbootfs/source/libmincrypt/rsa.c:58-76 | the digit chosen from the lowest limb makes the sum of a step an exact multiple of 2^32 |
| Montgomery.StepKeeps | cookbook/android-mkbootfs/source/libmincrypt/rsa.c:53-76 | a step on numbers divides by 2^32 modulo n and stays below b + n and below R, with or without the subtraction |
| Montgomery.ProductKeeps | cookbook/android-mkbootfs/source/libmincrypt/rsa.c:78-90 | as many steps as a has limbs leave a b over R modulo n, below b + n |
| Rsa.AccumulatorFits | cookbook/android-mkbootfs/source/libmincrypt/rsa.c:58-67 | no assignment to a 64-bit accumulator overflows |
| Rsa.LowDigitVanishes | cookbook/android-mkbootfs/source/libmincrypt/rsa.c:58-60 | the digit d0 makes the lowest limb of c + a b + d0 n vanish |
| Rsa.NextColumn | cookbook/android-mkbootfs/source/libmincrypt/rsa.c:63-67 | one turn of the loop: the words written and the carries of both accumulators together hold the sum of all columns so far |
| Rsa.Total | cookbook/android-mkbootfs/source/libmincrypt/rsa.c:69-71 | after the last column the array and its lost carry bit hold the whole sum over 2^32 |
| Rsa.StepDone | cookbook/android-mkbootfs/source/libmincrypt/rsa.c:53-76 | the columns of the limbs, the lost carry bit and SubM together give exactly one step on numbers |
| Rsa.Settled | cookbook/android-mkbootfs/source/libmincrypt/rsa.c:73-75 | subtracting the modulus exactly when a carry is lost cancels that carry |
| Rsa.MontMul | cookbook/android-mkbootfs/source/libmincrypt/rsa.c:78-90 | the array holds exactly the Montgomery product of the two numbers (Rsa.ProductOf); c R is congruent to a b modulo n, and c < b + n |
| Rsa.ModulusInverse | cookbook/android-mkbootfs/source/libmincrypt/rsa.c:59-60 | a valid key makes n times n0inv one less than a multiple of 2^32 |
| Rsa.CancelPow | cookbook/android-mkbootfs/source/libmincrypt/rsa.c:92-96 | powers of 2^32 can be cancelled modulo the modulus of a valid key |
| Rsa.CubeCongruence | cookbook/android-mkbootfs/source/libmincrypt/rsa.c:113-115 | three Montgomery products starting from rr = R^2 mod n leave a^3 modulo n with every factor R cancelled |
| Rsa.FromBytes | cookbook/android-mkbootfs/source/libmincrypt/rsa.c:103-111 | the limbs hold the number of the big-endian bytes |
| Rsa.ToBytes | cookbook/android-mkbootfs/source/libmincrypt/rsa.c:122-129 | the bytes hold the number of the limbs |
| Rsa.Reduce | cookbook/android-mkbootfs/source/libmincrypt/rsa.c:117-120 | one conditional subtraction gives a number congruent to s^3, and the residue itself when s < n or R <= 2 n |
| Rsa.CubedOfIs | cookbook/android-mkbootfs/source/libmincrypt/rsa.c:92-120 | what modpow3 computes from a number below R is congruent to its cube modulo n; it is s^3 mod n when s < n or R <= 2 n |
| Rsa.OutOfRangeExample | cookbook/android-mkbootfs/source/libmincrypt/rsa.c:92-120 | a valid key of one limb and a number above its modulus, 2 n < R, for which the result is s^3 mod n + n |
| Rsa.ModPow3 | cookbook/android-mkbootfs/source/libmincrypt/rsa.c:95-130 | in place, for every input: the exact value of the three products and the final subtraction (Rsa.CubedOf), congruent to the cube; the residue s^3 mod n when s < n or R <= 2 n |
| Rsa.PaddingIsEmsa | cookbook/android-mkbootfs/source/libmincrypt/rsa.c:132-157 | the padding table followed by a digest is EMSA-PKCS1-v1_5 of section 9.2 of RFC 8017 for SHA-1 and 256 bytes |
| Rsa.Matches | cookbook/android-mkbootfs/source/libmincrypt/rsa.c:183-195 | the two loops accept exactly padding followed by the digest |
| Rsa.RSA_verify | cookbook/android-mkbootfs/source/libmincrypt/rsa.c:159-198 | 1 if and only if the key has 64 words, the input 256 bytes, and modpow3 gives the encoding of the digest, else 0; so for s < n or R <= 2 n if and only if s^3 mod n is the encoding, and for every s acceptance implies congruence to the encoding |
| Rsa.AgreesInRange | cookbook/android-mkbootfs/source/libmincrypt/rsa.c:159-198 | for every s < n it decides as section 8.2.2 of RFC 8017 with e = 3, range test of RSAVP1 included |
| Rsa.DiffersOutOfRange | cookbook/android-mkbootfs/source/libmincrypt/rsa.c:159-198 | for R <= 2 n the two decisions differ if and only if s has 256 bytes, s >= n and s^3 mod n is the encoding |
| Rsa.AcceptsShifted | cookbook/android-mkbootfs/source/libmincrypt/rsa.c:159-198 | for R <= 2 n, when s is accepted and s + n is below R then s + n is accepted too, although RFC 8017 rejects it |
| RsaExample.AcceptedExample | cookbook/android-mkbootfs/source/libmincrypt/rsa.c:159-198 | a valid key of 2048 bits and a digest with an accepted signature t (3 * 2^681 + 1), for which t + n is accepted too and RFC 8017 rejects it |
| Limbs.LoadedValue | cookbook/android-mkbootfs/source/libmincrypt/rsa.c:103-111 | limbs taken from the end of a byte string hold its big-endian number |
| Limbs.BigEndianInjective | cookbook/android-mkbootfs/source/libmincrypt/rsa.c:183-195 | a byte string of known length is determined by its number, so comparing bytes compares numbers |
| BlockHash.ZerosLeast | cookbook/android-mkbootfs/source/libmincrypt/sha.c:176-178 | the padding takes the fewest zero bytes that leave room for the length in the last block |
| BlockHash.Stored | cookbook/android-mkbootfs/source/libmincrypt/sha.c:161-162 | bytes that do not fill the buffer are only stored: state and buffer have then absorbed the longer message |
| BlockHash.Filled | cookbook/android-mkbootfs/source/libmincrypt/sha.c:153-166 | bytes that fill the buffer are compressed with it, and the state has absorbed the longer message |
| BlockHash.Direct | cookbook/python2.7/jni/libcrypt/md5.c:218-219 | a whole block past an empty buffer can be compressed without going through the buffer |
| Fips180.DigitsOfLength | cookbook/android-mkbootfs/source/libmincrypt/sha.c:179-182 | the eight appended bytes stand for the bit count |
| Sha.MixerIsF | cookbook/android-mkbootfs/source/libmincrypt/sha.c:62-127 | both builds compute Ch, Parity and Maj of section 4.1.1 of FIPS 180-4 |
| Sha.MacroIsRound | cookbook/android-mkbootfs/source/libmincrypt/sha.c:62-136 | one macro and the rotation of the five names is one round of section 6.1.2 of FIPS 180-4 |
| Sha.RolledIsRound | cookbook/android-mkbootfs/source/libmincrypt/sha.c:219-236 | one turn of the rolled loop is the same round |
| Sha.SwapIsBigEndian | cookbook/android-mkbootfs/source/libmincrypt/sha.c:62-64 | a little-endian load and a byte swap are a big-endian load |
| Sha.ShaContext.Init | cookbook/android-mkbootfs/source/libmincrypt/sha.c:286-293 | a fresh context of either build has absorbed the empty message |
| Sha.ShaContext.FillSchedule | cookbook/android-mkbootfs/source/libmincrypt/sha.c:201-211 | the message schedule of section 6.1.2 of FIPS 180-4 |
| Sha.ShaContext.TransformUnrolled | cookbook/android-mkbootfs/source/libmincrypt/sha.c:51-145 | the name-rotating build maps every state and block to the compression of FIPS 180-4 |
| Sha.ShaContext.TransformRolled | cookbook/android-mkbootfs/source/libmincrypt/sha.c:195-243 | the rolled build maps them to the same state |
| Sha.ShaContext.Transform | cookbook/android-mkbootfs/source/libmincrypt/sha.c:51-243 | so both builds agree on every state and block |
| Sha.ShaContext.Update | cookbook/android-mkbootfs/source/libmincrypt/sha.c:147-258 | in both builds the message absorbed so far grows by the bytes of the call, however the input is cut into calls |
| Sha.ShaContext.PadZeros | cookbook/android-mkbootfs/source/libmincrypt/sha.c:176-178 | the loop ends, after exactly the zeros of section 5.1.1 of FIPS 180-4 |
| Sha.ShaContext.AppendCount | cookbook/android-mkbootfs/source/libmincrypt/sha.c:179-182 | the bit count is appended most significant byte first |
| Sha.ShaContext.PutWords | cookbook/android-mkbootfs/source/libmincrypt/sha.c:184-186 | the five words are left big-endian at the front of the buffer |
| Sha.ShaContext.Final | cookbook/android-mkbootfs/source/libmincrypt/sha.c:171-282 | the result is SHA-1 of everything absorbed, and is what the buffer starts with |
| Sha.DigestOf | cookbook/android-mkbootfs/source/libmincrypt/sha.c:296-307 | the one-call form gives SHA-1 of its data in both builds |
| Md5Forms.WordTable | cookbook/python2.7/jni/libcrypt/md5.c:318-323 | the table P is the order in which section 3.4 of RFC 1321 takes the words |
| Md5Forms.ShiftTable | cookbook/python2.7/jni/libcrypt/md5.c:282-287 | the table S, read with the step of four per round, gives the rotations of section 3.4 of RFC 1321 |
| Md5Forms.MacroIsMixed | cookbook/python2.7/jni/libcrypt/md5.c:157-176 | a macro FF, GG, HH or II is one operation of section 3.4 of RFC 1321 |
| Md5Forms.TempIsMixed | cookbook/python2.7/jni/libcrypt/md5.c:334-355 | so is one turn of the switch form |
| Md5Forms.UnrolledForm | cookbook/python2.7/jni/libcrypt/md5.c:417-505 | the 64 macros in a row are the 64 operations of section 3.4 of RFC 1321, for every state and block |
| Md5Forms.FourPerLoopForm | cookbook/python2.7/jni/libcrypt/md5.c:384-416 | so are the four loops of four macros |
| Md5Forms.OnePerLoopForm | cookbook/python2.7/jni/libcrypt/md5.c:356-383 | so are the four loops that rotate the registers |
| Md5Forms.OneLoopForm | cookbook/python2.7/jni/libcrypt/md5.c:331-355 | so is the single loop with a switch; hence all four forms agree |
| Md5.Md5Context.Init | cookbook/python2.7/jni/libcrypt/md5.c:180-190 | the context has absorbed the empty message, whatever its buffer held |
| Md5.Md5Context.Transform | cookbook/python2.7/jni/libcrypt/md5.c:275-514 | in every form the state becomes the compression of section 3.4 of RFC 1321 |
| Md5.Decode | cookbook/python2.7/jni/libcrypt/md5.c:133-141 | the sixteen words of a block, low-order byte first |
| Md5.Md5Context.AddBits | cookbook/python2.7/jni/libcrypt/md5.c:204-208 | the two count words stay 8 times the byte count modulo 2^64 |
| Md5.CountStep | cookbook/python2.7/jni/libcrypt/md5.c:204-208 | the comparison detects exactly the carry into the high word, also for lengths of 2^29 bytes and more |
| Md5.IndexIsTail | cookbook/python2.7/jni/libcrypt/md5.c:201-202 | the index taken from the count is the number of bytes past the last block |
| Md5.CountBytes | cookbook/python2.7/jni/libcrypt/md5.c:244-245 | the encoded count words are the length bytes of section 3.2 of RFC 1321 |
| Md5.PadLength | cookbook/python2.7/jni/libcrypt/md5.c:247-249 | the computed pad length is the padding of section 3.1 of RFC 1321 |
| Md5.Md5Context.Update | cookbook/python2.7/jni/libcrypt/md5.c:197-229 | when i + 63 fits 32 bits the absorbed message grows by the input: state, count and buffer are those of the longer message, however it is cut |
| Md5.IndexNeverWraps | cookbook/python2.7/jni/libcrypt/md5.c:218-219 | when IndexFits holds the loop guard means that a whole block is left |
| Md5.IndexWraps | cookbook/python2.7/jni/libcrypt/md5.c:218-219 | when it does not, the guard holds although less than a block is left: the condition is exact |
| Md5.IndexWrapsExample | cookbook/python2.7/jni/libcrypt/md5.c:218-219 | one buffered byte and a call of 2^32 - 1 bytes fail the condition |
| Md5.SmallFits | cookbook/python2.7/jni/libcrypt/md5.c:218-219 | every call length up to 2^32 - 64 meets it |
| Md5.Md5Context.Pad | cookbook/python2.7/jni/libcrypt/md5.c:235-254 | the absorbed message is padded as sections 3.1 and 3.2 of RFC 1321 say |
| Md5.Md5Context.Final | cookbook/python2.7/jni/libcrypt/md5.c:261-271 | the digest is MD5 of everything absorbed |
| Md5CryptImpl.FindSalt | cookbook/python2.7/jni/libcrypt/md5.c:544-556 | the true salt: after an optional magic string, up to the first dollar sign, 8 characters or the end |
| Md5CryptImpl.Start | cookbook/python2.7/jni/libcrypt/md5.c:558-592 | the first digest hashes password, magic, salt, as many inner digest bytes as the password has, and one byte per binary digit of its length |
| Md5CryptImpl.FeedCycle | cookbook/python2.7/jni/libcrypt/md5.c:576-577 | the repeated digest bytes are as many as the password has |
| Md5CryptImpl.FeedDigits | cookbook/python2.7/jni/libcrypt/md5.c:582-585 | one byte for each binary digit of the length, lowest first |
| Md5CryptImpl.Stretch | cookbook/python2.7/jni/libcrypt/md5.c:599-617 | the thousand rounds |
| Md5CryptImpl.To64Into | cookbook/python2.7/jni/libcrypt/md5.c:517-523 | n letters for n groups of six bits, lowest first |
| Md5CryptImpl.CopyString | cookbook/python2.7/jni/libcrypt/md5.c:589-589 | strncpy into the buffer byte by byte, from a place that may be overwritten by the copying itself: the source ends where a zero is found, and zeros follow |
| Md5CryptImpl.WriteHeader | cookbook/python2.7/jni/libcrypt/md5.c:587-590 | before the rounds: magic string with its terminator, salt and dollar sign over what the buffer held, which may be the salt or the password |
| Md5CryptImpl.WriteLetters | cookbook/python2.7/jni/libcrypt/md5.c:619-630 | after the rounds: the 22 letters and the terminator, and the rest of the 35-byte buffer as it was |
| Md5CryptImpl.Md5CryptInto | cookbook/python2.7/jni/libcrypt/md5.c:531-636 | for every password and salt wherever they lie, and in every form of the transform: the whole buffer afterwards, as a function of the buffer before and of the places (Md5CryptBuffer.Left) |
| Md5CryptBuffer.LeftElsewhere | cookbook/python2.7/jni/libcrypt/md5.c:531-636 | when neither argument lies in the buffer it holds the hash of the two strings as a C string |
| Md5CryptBuffer.SaltInBuffer | cookbook/python2.7/jni/libcrypt/md5.c:587-617 | when the salt is the string in the buffer, the buffer then holds the hash if and only if the true salt is empty; otherwise the string left is the magic string alone |
| Md5CryptBuffer.PasswordInBuffer | cookbook/python2.7/jni/libcrypt/md5.c:587-617 | when the password is a hash in the buffer, the rounds find it unchanged if and only if the true salt is that of the hash; then the buffer holds the hash of the two |
| Md5CryptBuffer.NestedCall | cookbook/python2.7/jni/libcrypt/md5.c:531-636 | the result passed on as the salt gives itself if and only if there is no true salt, and else the magic string |
| Md5CryptBuffer.NestedExample | cookbook/python2.7/jni/libcrypt/md5.c:531-636 | so it does for the key secret and the salt $1$saltsalt$ |
| Md5CryptSpec.SaltLenFinds | cookbook/python2.7/jni/libcrypt/md5.c:551-556 | the salt has no dollar sign, and ends at one, at 8 characters or at the end |
| Md5CryptSpec.From64To64 | cookbook/python2.7/jni/libcrypt/md5.c:517-523 | reading the letters back gives the number, if it fits the groups |
| Md5CryptSpec.EncodeRoundTrip | cookbook/python2.7/jni/libcrypt/md5.c:619-630 | the shuffle i, i+6, i+12 with byte 5 in place of byte 16 hits each byte once: the 22 letters determine the 16 digest bytes |
| Md5CryptSpec.OwnSalt | cookbook/python2.7/jni/libcrypt/md5.c:531-636 | the output is a C string of at most 34 characters that starts with the magic string and whose true salt is the one it was made with |
| Md5CryptSpec.HashAsOwnSalt | cookbook/python2.7/jni/libcrypt/md5.c:531-636 | on strings: the MD5 hash of a password with its own hash as salt is the same hash |
| DesTables.IpThenFp | cookbook/python2.7/jni/libcrypt/des.c:258-261 | the final permutation table undoes the initial one |
| DesTables.FpThenIp | cookbook/python2.7/jni/libcrypt/des.c:258-261 | and the other way round |
| DesMasks.MaskEntry | cookbook/python2.7/jni/libcrypt/des.c:283-331 | an entry of a mask table has exactly the output bits whose source is a set bit of the index |
| DesMasks.FillTables | cookbook/python2.7/jni/libcrypt/des.c:283-331 | so have all entries of a pair of tables built from an inverted permutation |
| DesMasks.LookupBit | cookbook/python2.7/jni/libcrypt/des.c:403-418 | OR-ing the masks of all chunks of a word copies each output bit from its source |
| DesKeys.RotatedBit | cookbook/python2.7/jni/libcrypt/des.c:428-429 | the unmasked shifts rotate the 28 bits that are used, for shifts from 1 to 28 |
| DesKeys.HalvesTotal | cookbook/python2.7/jni/libcrypt/des.c:422-426 | rotating by the sum of shifts is rotating round by round |
| DesKeys.Choose1ByLookup | cookbook/python2.7/jni/libcrypt/des.c:403-418 | the key permutation by lookup is permuted choice 1 of FIPS 46-3 |
| DesKeys.Choose2ByLookup | cookbook/python2.7/jni/libcrypt/des.c:431-449 | the compression by lookup is permuted choice 2 of FIPS 46-3 |
| DesKeys.RotatedHalves | cookbook/python2.7/jni/libcrypt/des.c:422-429 | the rotated words hold C and D of each round |
| DesRound.LeftBits | cookbook/python2.7/jni/libcrypt/des.c:500-505 | ANDs and shifts give the first 24 bits of the E table of FIPS 46-3 |
| DesRound.RightBits | cookbook/python2.7/jni/libcrypt/des.c:506-510 | and the last 24 bits |
| DesBoxes.FillBoxes | cookbook/python2.7/jni/libcrypt/des.c:237-252 | each entry of m_sbox holds the outputs of two S-boxes for twelve input bits |
| DesBoxes.ReorderIsRowColumn | cookbook/python2.7/jni/libcrypt/des.c:237-241 | the reordered index is row times 16 plus column of FIPS 46-3 |
| DesBoxes.FillP | cookbook/python2.7/jni/libcrypt/des.c:337-347 | psbox holds the P permutation as masks |
| DesBoxes.BoxesBits | cookbook/python2.7/jni/libcrypt/des.c:522-525 | four lookups are the eight S-boxes followed by P |
| DesMachine.IpInverse | cookbook/python2.7/jni/libcrypt/des.c:258-261 | init_perm and final_perm, filled in one loop, are inverse to IP and to the final permutation |
| DesMachine.BuildTables | cookbook/python2.7/jni/libcrypt/des.c:216-350 | des_init fills every table so that it stands for its permutation or boxes |
| DesMachine.PermutedByLookup | cookbook/python2.7/jni/libcrypt/des.c:476-492 | a permutation by eight lookups is the permutation of its table |
| DesMachine.SaltedBits | cookbook/python2.7/jni/libcrypt/des.c:511-517 | the masked exclusive-or exchanges exactly the bits i and i + 24 that the salt selects, and adds the round key |
| DesMachine.RoundWord | cookbook/python2.7/jni/libcrypt/des.c:500-525 | the words of one round compute the salted cipher function f of FIPS 46-3 |
| Feistel.Invert | cookbook/python2.7/jni/libcrypt/des.c:465-533 | for every round function, running the reversed keys after an exchange of halves undoes a run |
| Fips46.FinalInitial | cookbook/python2.7/jni/libcrypt/des.c:476-550 | the final permutation undoes the initial one on every block |
| Fips46.SkipPermutations | cookbook/python2.7/jni/libcrypt/des.c:494-533 | iterating without the permutations in between is composing whole encryptions |
| Fips46.CipherNAdd | cookbook/python2.7/jni/libcrypt/des.c:494-533 | n encryptions after m are m + n encryptions |
| Fips46.CipherUndo | cookbook/python2.7/jni/libcrypt/des.c:465-474 | one decryption undoes one encryption, for every key schedule and salt |
| Fips46.DoDesUndo | cookbook/python2.7/jni/libcrypt/des.c:455-552 | do_des with -c undoes do_des with c, for every key, salt, block and count but 0 |
| Fips46.DoDesAdd | cookbook/python2.7/jni/libcrypt/des.c:455-552 | counts of the same sign add |
| Des.LoadBits | cookbook/python2.7/jni/libcrypt/des.c:383-384 | the two big-endian words hold the 64 bits of the key bytes |
| Des.ReverseSalt | cookbook/python2.7/jni/libcrypt/des.c:363-371 | saltbits is the 24-bit reversal of the salt |
| Des.DesState.constructor | cookbook/python2.7/jni/libcrypt/des.c:71-90 | zeroed static memory is a valid state: the zero key and salt agree with the zero schedules |
| Des.DesState.Init | cookbook/python2.7/jni/libcrypt/des.c:216-350 | the tables are built once, and the caches still agree |
| Des.DesState.SetupSalt | cookbook/python2.7/jni/libcrypt/des.c:353-372 | saltbits is that of the requested salt, whether it was cached or not |
| Des.DesState.DesSetKey | cookbook/python2.7/jni/libcrypt/des.c:375-451 | both schedules are those of the requested key, whether it was cached or not; the zero key is never taken from the cache |
| Des.DesState.FillSchedule | cookbook/python2.7/jni/libcrypt/des.c:400-450 | row n of the schedules is the round key of FIPS 46-3, forward and in reverse |
| Des.DesState.StoreRound | cookbook/python2.7/jni/libcrypt/des.c:431-449 | the chained assignments keep the reverse schedule the forward one reversed |
| Des.DesState.PermuteBlock | cookbook/python2.7/jni/libcrypt/des.c:476-550 | the lookups before and after the rounds are the initial and the final permutation |
| Des.DesState.ForwardRounds | cookbook/python2.7/jni/libcrypt/des.c:465-474 | in every valid state the forward arrays hold the key schedule and the reverse arrays the reversed one |
| Des.DesState.SixteenRounds | cookbook/python2.7/jni/libcrypt/des.c:495-532 | the loop of rounds and the exchange after it are the sixteen rounds of FIPS 46-3 with salt |
| Des.DesState.DoDes | cookbook/python2.7/jni/libcrypt/des.c:454-552 | in every valid state the result is that of bit-level DES under the current key and salt, iterated or inverted by the count; 1 and no block for a count of 0 |
| Des.DesState.SetKey | cookbook/python2.7/jni/libcrypt/des.c:584-600 | the current key becomes the low bits of 64 bytes |
| Des.DesState.Encrypt | cookbook/python2.7/jni/libcrypt/des.c:603-623 | the block becomes its encryption, or decryption, under the current key without salt; the key stays |
| DesText.NoSalt | cookbook/python2.7/jni/libcrypt/des.c:511-517 | with salt 0 the cipher function is the one of FIPS 46-3 |
| DesText.EncryptedTwice | cookbook/python2.7/jni/libcrypt/des.c:603-623 | encrypt with one flag and then the other restores every block of zeros and ones |
| Ascii64.LetterRoundTrip | cookbook/python2.7/jni/libcrypt/des.c:198-214 | ascii_to_bin inverts the alphabet, whose letters are neither dollar sign nor NUL |
| Ascii64.BinRange | cookbook/python2.7/jni/libcrypt/des.c:198-214 | every byte gives a number below 64, and any but 0 only for its own letter |
| DesText.KeyBytesAre | cookbook/python2.7/jni/libcrypt/des.c:634-643 | each key byte is its character shifted up, up to the first character that the shift loses, and 0 from there on |
| DesText.KeyIsPadded | cookbook/python2.7/jni/libcrypt/des.c:634-643 | all characters are used, padded with zeros, if and only if no character 0x80 comes before one that is kept |
| DesText.KeyIsPaddedExample | cookbook/python2.7/jni/libcrypt/des.c:634-643 | for the key 0x80 0x41 the second key byte is 0, not 0x41 shifted up |
| Des.PackKey | cookbook/python2.7/jni/libcrypt/des.c:634-643 | the copying loop ends and fills the eight key bytes |
| DesText.LettersRoundTrip | cookbook/python2.7/jni/libcrypt/des.c:716-735 | the eleven letters determine both 32-bit halves |
| DesText.WordLettersAre | cookbook/python2.7/jni/libcrypt/des.c:716-735 | the shifts and masks take consecutive groups of six bits of the two words |
| Des.WriteHash | cookbook/python2.7/jni/libcrypt/des.c:696-737 | the output buffer holds two salt characters, eleven letters and the terminator, also when the setting lies in it |
| DesText.SaltKept | cookbook/python2.7/jni/libcrypt/des.c:696-706 | a hash used as a setting has the same salt if and only if the setting had two characters or its only one stands for 0 |
| DesText.SaltKeptExample | cookbook/python2.7/jni/libcrypt/des.c:696-706 | the setting of the single letter a and the hash made with it have different salts |
| DesText.DesHashIsItsOwnSalt | cookbook/python2.7/jni/libcrypt/des.c:626-738 | a DES hash used as its own setting gives the same hash |
| Des.DesState.DesCrypt | cookbook/python2.7/jni/libcrypt/des.c:626-738 | whatever calls came before, and also when key or setting lie in the output buffer, it holds the hash of key and setting, which are then the current key and salt |
| Crypt.CryptState.Crypt | cookbook/python2.7/jni/libcrypt/crypt.c:13-21 | in every valid state and for arguments anywhere in memory: the returned buffer holds the string that key and salt alone determine when neither lies in the buffer of __md5_crypt or the DES form is chosen; otherwise the whole of that buffer is stated |
| Crypt.CryptState.CryptOfCrypt | cookbook/python2.7/jni/libcrypt/crypt.c:13-21 | crypt(k, crypt(k, s)) with the returned buffer passed on: the DES form gives the same hash again; the MD5 form does if and only if there is no true salt, and else gives the string $1$ |
| Crypt.HashIsItsOwnSalt | cookbook/python2.7/jni/libcrypt/crypt.c:13-21 | on strings, so for a copied hash: crypt(k, crypt(k, s)) = crypt(k, s) for every k and every s of two characters or more, and for one character that stands for 0 |
| VersionCompare.CompareRuns | bin/opkg-utils/opkg-compare-versions.c:46-53 | the loop over two runs of non-digits decides as the lexicographic order on letters before other characters, the end first |
| VersionCompare.CompareNumbers | bin/opkg-utils/opkg-compare-versions.c:54-58 | two numbers, cut off at LONG_MAX, are compared by value, their difference returned as an int; when they are equal, what is left is compared by what follows them |
| VersionCompare.Verrevcmp | bin/opkg-utils/opkg-compare-versions.c:34-71 | for all strings and every LONG_MAX the loop ends, and the sign is that of the first difference of the keys (runs of non-digits, numbers, and the class of what follows: end before separator before other) stored in an int |
| VersionCompare.Versioncompare | bin/opkg-utils/opkg-compare-versions.c:73-83 | the sign is decided by epoch, then version, then revision, for all inputs |
| VersionCompare.ComputedIsOrder | bin/opkg-utils/opkg-compare-versions.c:34-83 | for versions with numbers below 2^31 this is the lexicographic order by epoch, version and revision, whatever a long holds |
| VersionCompare.ComputedIsCut | bin/opkg-utils/opkg-compare-versions.c:34-83 | where long has 32 bits it is, for all versions, that order with numbers cut off at 2^31 - 1 |
| VersionCompare.KeyCut | bin/opkg-utils/opkg-compare-versions.c:34-71 | cutting off changes numbers only, no rank and no class |
| VersionCompare.ComputedIf | bin/opkg-utils/opkg-compare-versions.c:34-83 | for versions with the same revision, as parseversion returns them, it is the order of the numbers themselves if and only if the epochs differ or the first difference of the keys is kept: its two numbers are different when cut off and their difference modulo 2^32 keeps its sign, or they are not and what follows decides alike |
| VersionCompare.CutExample | bin/opkg-utils/opkg-compare-versions.c:34-104 | with a long of 32 bits 20110521123000 = 20120101000000, and 2147483647 = 2147483648 |
| VersionCompare.LongExample | bin/opkg-utils/opkg-compare-versions.c:34-83 | with a long of 64 bits version 4294967296 equals 0, and 2147483648 < 0 < 2147483647 < 2147483648 |
| VersionCompare.DifferenceIsLex | bin/opkg-utils/opkg-compare-versions.c:34-71 | the sign of the first difference is the lexicographic order |
| VersionCompare.OrderFlip | bin/opkg-utils/opkg-compare-versions.c:73-83 | exchanging the sides negates the order, with or without a limit on numbers |
| VersionCompare.OrderTransitive | bin/opkg-utils/opkg-compare-versions.c:73-83 | the order is transitive, also in its strict part |
| VersionCompare.OrderEqual | bin/opkg-utils/opkg-compare-versions.c:73-83 | versions that compare equal compare alike with every other |
| VersionCompare.Versionsatisfied3 | bin/opkg-utils/opkg-compare-versions.c:85-104 | the result for each operator, and the exit for an unknown one, in terms of the comparison, for all inputs |
| VersionCompare.Trichotomy | bin/opkg-utils/opkg-compare-versions.c:85-104 | exactly one of <<, = and >> holds; a << b if and only if b >> a; <= and >= are the negations of >> and <<, and < and > mean the same as <= and >= |
| VersionCompare.ParseRoundTrip | bin/opkg-utils/opkg-compare-versions.c:106-136 | a version written with its epoch is read back, and so is one without a colon |
| VersionCompare.ParsesIf | bin/opkg-utils/opkg-compare-versions.c:106-136 | exactly which strings are accepted |
| VersionCompare.ColonInFront | bin/opkg-utils/opkg-compare-versions.c:113-119 | a colon in front is accepted with epoch 0, since strtoul stops where it started |
| Lexicographic.LexTransitive | bin/opkg-utils/opkg-compare-versions.c:34-71 | the lexicographic order is transitive |
| Lexicographic.LexEqual | bin/opkg-utils/opkg-compare-versions.c:34-71 | and equal exactly for equal keys |
| OpkgVersion.Turn | bin/opkg-utils/opkg.py:56-86 | one turn of the loop compares keys lexicographically, an exhausted side counting as an empty run and no number |
| OpkgVersion.Versioncompare | bin/opkg-utils/opkg.py:53-86 | the loop ends on all strings, and the result is the lexicographic order on runs of non-digits and numbers |
| OpkgVersion.SplitIsShortest | bin/opkg-utils/opkg.py:94-95 | the two groups are a match of the expression with the shortest first group, and there is one whenever anything matches |
| OpkgVersion.SplitIf | bin/opkg-utils/opkg.py:94-95 | the expression matches exactly the nonempty lines, with or without a newline at the end |
| OpkgVersion.Compare | bin/opkg-utils/opkg.py:88-102 | the order by epoch, version and release; an error exactly when the epochs are equal and one side does not match |
| OpkgVersion.EmptyVersionFails | bin/opkg-utils/opkg.py:88-114 | the empty version is parsed but raises an error when it is compared |
| OpkgVersion.OrderFlip | bin/opkg-utils/opkg.py:88-102 | exchanging the sides negates the order |
| OpkgVersion.OrderTransitive | bin/opkg-utils/opkg.py:88-102 | the order is transitive, also in its strict part |
| OpkgVersion.OrderEqual | bin/opkg-utils/opkg.py:88-102 | versions that compare equal compare alike with every other |
| OpkgVersion.StrRoundTrip | bin/opkg-utils/opkg.py:104-114 | what a version prints is parsed to the same version if and only if it has no newline |
| PackageIndex.Package.SetVersion | bin/opkg-utils/opkg.py:255-257 | string and cache agree afterwards, or the string is stored, the cache kept and the error raised |
| PackageIndex.Package.CompareVersion | bin/opkg-utils/opkg.py:391-401 | filling the caches changes no comparison, and the result is that of the two versions in use |
| PackageIndex.NewestUnique | bin/opkg-utils/opkg.py:445-456 | a name has at most one newest entry |
| PackageIndex.NewestAfter | bin/opkg-utils/opkg.py:445-456 | a package not older than the newest becomes the newest, and an older one changes nothing |
| PackageIndex.Packages.AddPackage | bin/opkg-utils/opkg.py:445-456 | after every run with comparable packages each name and architecture holds the latest added among the greatest; 0 exactly when the new package is held; for any package the exact new index and result; with one that cannot be compared the index stays valid if and only if its name was held and its version does not parse or has no greater epoch than the held one |
| PackageIndex.NewNameFails | bin/opkg-utils/opkg.py:445-456 | a new name with the empty version is stored, and then an error is raised |
| PackageIndex.EmptyVersionReplaces | bin/opkg-utils/opkg.py:445-456 | version 1: is not comparable with its like but replaces every held version of epoch 0, with return value 0 |
| PackageIndex.Packages.Store | bin/opkg-utils/opkg.py:445-456 | the new index and the result in terms of the comparison with the held package |
| Cpio.WordBack | cookbook/android-mkbootfs/source/cpio/mkbootfs.c:60-78 | eight hexadecimal digits determine a 32-bit number |
| Cpio.RecordAligned | cookbook/android-mkbootfs/source/cpio/mkbootfs.c:45-93 | header and contents of every entry start at multiples of 4 |
| Cpio.ReadsRecord | cookbook/android-mkbootfs/source/cpio/mkbootfs.c:45-93 | a plain newc reader finds the entry that was written, and ends where it ends |
| Cpio.ReadsArchive | cookbook/android-mkbootfs/source/cpio/mkbootfs.c:45-105 | reading a stream of entries and a trailer gives the entries before the first one named like the trailer |
| Cpio.EncodeAppend | cookbook/android-mkbootfs/source/cpio/mkbootfs.c:45-93 | writing two lists one after the other is writing their concatenation |
| ArchiveWalk.SortedUnique | cookbook/android-mkbootfs/source/cpio/mkbootfs.c:109-160 | names have only one order sorted by strcmp, so the archive does not depend on the sorting algorithm or the order of readdir |
| ArchiveWalk.TruncatedWhole | cookbook/android-mkbootfs/source/cpio/mkbootfs.c:216-221 | the entry of a symbolic link holds its whole target if and only if the target has at most 1024 bytes |
| ArchiveWalk.WalkVisits | cookbook/android-mkbootfs/source/cpio/mkbootfs.c:113-225 | a complete walk writes one item for each visited file, in order, with its path, mode and contents |
| ArchiveWalk.DirVisits | cookbook/android-mkbootfs/source/cpio/mkbootfs.c:113-182 | it visits exactly the files below the start directory that names which are not left out lead to |
| ArchiveWalk.VisitsIncrease | cookbook/android-mkbootfs/source/cpio/mkbootfs.c:113-182 | a directory comes before what is in it and names come in strcmp order, strictly, when readdir lists no name twice |
| ArchiveWalk.FilesAre | cookbook/android-mkbootfs/source/cpio/mkbootfs.c:238-255 | the items of a complete run over several arguments are those of the files below their start directories, one for each |
| ArchiveWalk.FilesIncrease | cookbook/android-mkbootfs/source/cpio/mkbootfs.c:238-255 | in the order of the arguments, and in each in the order of the walk |
| Mkbootfs.RunHolds | cookbook/android-mkbootfs/source/cpio/mkbootfs.c:45-261 | the archive of a complete run has exactly one entry for each file below the start directories that names which are not left out lead to, in that order; the reader gives all of them if and only if none is named like the trailer |
| ArchiveWalk.PathIdentifies | cookbook/android-mkbootfs/source/cpio/mkbootfs.c:162-172 | the path in the archive determines the names that lead to the file |
| Mkbootfs.PathsDiffer | cookbook/android-mkbootfs/source/cpio/mkbootfs.c:113-261 | two files below the same argument have different paths in the archive of a complete run |
| Mkbootfs.ReadNames | cookbook/android-mkbootfs/source/cpio/mkbootfs.c:135-158 | the names kept are those that are neither dotfiles nor root |
| Mkbootfs.Writer.Align | cookbook/android-mkbootfs/source/cpio/mkbootfs.c:52-55 | zeros up to the next multiple of 4, counted in total_size |
| Mkbootfs.Writer.Eject | cookbook/android-mkbootfs/source/cpio/mkbootfs.c:45-93 | total_size stays the number of bytes written, one record is appended and the inode number counts up; it dies exactly when the path length is wrong |
| Mkbootfs.Writer.EjectTrailer | cookbook/android-mkbootfs/source/cpio/mkbootfs.c:95-105 | the trailer, and zeros up to a multiple of 256 |
| Mkbootfs.PushName | cookbook/android-mkbootfs/source/cpio/mkbootfs.c:163-172 | both buffers hold the paths of the directory entry |
| Mkbootfs.PopName | cookbook/android-mkbootfs/source/cpio/mkbootfs.c:176-177 | both buffers hold the paths of the directory again |
| Mkbootfs.Writer.ArchiveName | cookbook/android-mkbootfs/source/cpio/mkbootfs.c:162-180 | one turn of the loop writes what is below one name and restores both buffers |
| Mkbootfs.Writer.ArchiveDir | cookbook/android-mkbootfs/source/cpio/mkbootfs.c:113-182 | everything below the directory is written in pre-order, names sorted, and both path buffers are restored; when the program dies, exactly what comes before is written |
| Mkbootfs.Writer.Archive | cookbook/android-mkbootfs/source/cpio/mkbootfs.c:184-225 | the same for a file, link or directory |
| Mkbootfs.Writer.ArchiveTree | cookbook/android-mkbootfs/source/cpio/mkbootfs.c:227-236 | the same for a start directory and a prefix |
| Mkbootfs.Writer.Run | cookbook/android-mkbootfs/source/cpio/mkbootfs.c:238-261 | when the paths fit their buffers and the stream is below 2^31 bytes as far as the program gets: the stream is the archive of all arguments, or what was written before the program died; it dies exactly when there is no argument or a walk meets a file that cannot be archived |
| Mkbootfs.ArchiveRoundTrip | cookbook/android-mkbootfs/source/cpio/mkbootfs.c:45-261 | reading the archive gives all entries if and only if none is named like the trailer; its length is a multiple of 256 and the inode numbers are distinct |
| Mkbootfs.TrailerExample | cookbook/android-mkbootfs/source/cpio/mkbootfs.c:95-105 | a directory with one empty file named TRAILER!!! gives an archive that is read as empty |
| BootImage.LowMask | cookbook/android-mkbootfs/source/mkbootimg/mkbootimg.c:80-87 | masking with pagesize - 1 is the remainder for powers of two |
| BootImage.PadFills | cookbook/android-mkbootfs/source/mkbootimg/mkbootimg.c:78-94 | the padding reaches the next page for both page sizes |
| BootImage.WritePadding | cookbook/android-mkbootfs/source/mkbootimg/mkbootimg.c:78-94 | the zeros appended after an item |
| BootImage.HashParts | cookbook/android-mkbootfs/source/mkbootimg/mkbootimg.c:224-231 | the digest is SHA-1 of kernel, ramdisk and second stage, each followed by its size word |
| BootImage.Pack | cookbook/android-mkbootfs/source/mkbootimg/mkbootimg.c:117-255 | the image, or the first error in the order of the checks, a file that cannot be loaded among them |
| BootImage.Layout | cookbook/android-mkbootfs/source/mkbootimg/bootimg.h:52-69 | kernel, ramdisk and second stage start at pages 1, 1 + n and 1 + n + m, n and m being their sizes in pages rounded up |
| BootImage.EndsWithPage | cookbook/android-mkbootfs/source/mkbootimg/mkbootimg.c:250-253 | the file ends with a whole page if and only if there is no second stage or its size and that of the ramdisk leave the same remainder |
| BootImage.EndsWithPageExample | cookbook/android-mkbootfs/source/mkbootimg/mkbootimg.c:250-253 | a second stage of one byte behind an empty ramdisk does not |
| BootImage.HeaderRoundTrip | cookbook/android-mkbootfs/source/mkbootimg/bootimg.h:28-50 | the header structure is read back from its 608 bytes |
| BootImage.FileReader.Fread | cookbook/android-mkbootfs/source/mkbootimg/unpackbootimg.c:83-83 | an item is read whole or the position goes to the end of the file |
| BootImage.FileReader.ReadPadding | cookbook/android-mkbootfs/source/mkbootimg/unpackbootimg.c:15-31 | the position advances by the padding, or past the end |
| BootImage.Unpack | cookbook/android-mkbootfs/source/mkbootimg/unpackbootimg.c:78-138 | the outputs for any file and page size, and total_read is the position after the ramdisk as an int; no outputs when the file ends too early, the header text has no end, or the page size is no positive int |
| BootImage.UnpackPack | cookbook/android-mkbootfs/source/mkbootimg/unpackbootimg.c:83-138 | unpacking a packed image returns the same kernel, ramdisk, command line, base and page size for every input and both page sizes, whether the page size is given or taken from the header |

## Left out

- Rsa.ModPow3: for an input at or above the modulus, when twice the modulus is below R, the exact result is stated as the value of the three Montgomery products; which of these inputs give the residue itself is not said in simpler terms.
- Md5.Md5Context.Update: call lengths for which i + 63 exceeds 32 bits are excluded, because the loop then leaves its input.
- VersionCompare.Verrevcmp: characters outside ASCII where char is signed; a long is converted to an int modulo 2^32, as GCC does.
- BootImage.Unpack: what is in a buffer after a short read, what is read past a header without any NUL, and page sizes that are no positive int; the result is then None.
- BootImage.FileReader.Fread: the bytes that a short read leaves in the buffer.
- Mkbootfs.Writer.Run: runs that get to a path that overflows the 8192-byte buffers, or to a stream of 2^31 bytes, which the program does not check.
- Mkbootfs.Writer.ArchiveName: the same for what is below one name.
- Mkbootfs.Writer.ArchiveDir: the same for one directory.
- Mkbootfs.Writer.Archive: the same for one path.
- Mkbootfs.Writer.ArchiveTree: the same for one argument.
- Files, processes and directories: files are byte sequences, and the file system is a map from paths to nodes; a start directory given as a symbolic link, partial reads and failed allocations are not modelled.
- `fs_config` is an arbitrary function from path, kind and mode to a mode; its rule tables are not part of this model.
- `qsort` is a sort by strcmp; `ArchiveWalk.SortedUnique` shows that any sort gives the same result.
- Argument parsing of `mkbootimg` and `unpackbootimg`: an option is given at most once, `--ramdiskaddr` after `--base`, and a ramdisk NONE is an empty one; output files, their names and printed messages.
- `des.c`: the disabled `des_cipher` and new-style settings, and settings without any character, where the source reads past the end of a string.
- A shift by a variable amount is written as so many single shifts, which is the same for amounts below the word width.
- The sine table of RFC 1321 is taken as a table.
- `strncpy` copies byte by byte from the front; the C standard does not define it for a source that overlaps the destination.
- Clearing memory after use (`memset` of digests and contexts).
- Words in memory are little-endian where a structure is written or hashed as bytes (`BootImage`), and `ntohl` is a big-endian load.
- `opkg.py`: control files, the file list and checksum of packages, and writing the index; package versions are strings.
- `arfile.py`, `opkg-show-deps`, the `botbrew` scripts and recipes, and the headers without bodies.
- Cryptographic strength of any of the algorithms.
