# B91 elliptic-curve accelerator bridge

This project is a Dafny model of the bridge between mbedtls's elliptic-curve
layer and the public-key engine (PKE) of the Telink B91. The bridge lives in
`ecp_alt_b91_backend.c`. It has three entry points, each taking NULL-able
pointer arguments:

- `ecp_alt_b91_backend_check_pubkey` checks that a point lies on a curve.
- `ecp_alt_b91_backend_mul` computes R = m·P on a short-Weierstrass or a Montgomery curve.
- `ecp_alt_b91_backend_muladd` computes R = m·P + n·Q on a short-Weierstrass curve.

Each entry point works the same way:

1. It classifies the group by which generator coordinates are present.
2. It looks the group id up in a registry of accelerator parameter records.
3. It converts the operands, little-endian, into word arrays of
   `GET_WORD_LEN(pbits)` 32-bit words.
4. It drives the accelerator under the platform's ECP lock.
5. It converts the results back into R.
6. It zeroes every staging array before returning.

The model keeps the code's order of checks and its result codes exactly. Its modules are:

- `Bytes`: 4-byte limbs, `GET_BYTE`, `CHARS_TO_LIMBS`, and the little-endian value of byte and limb strings.
- `Codec`: `mbedtls_mpi_write_binary_le` and `mbedtls_mpi_read_binary_le`, with round-trip lemmas, and `mbedtls_mpi_lset`, which the read calls to clear X and the entry points call to set R's coordinates.
- `CurveTables`: the parameter records, built from the designated initializer lists of `ecp_alt_b91_backend.c` as C builds them (the last initializer naming a member wins), and as they were evidently meant to be read.
- `Curves`: `ecp_get_type`, the two linking tables and the linear lookups `eccp_curve_get` and `mont_curve_get`.
- `Pke`: the accelerator requests, the hardware oracle's replies, and an event trace of lock acquisitions, releases, accelerator calls, operand stagings, loads into R and buffer wipes. A lock state machine (free, held, broken) judges the trace.
- `Bridge`: the three entry points, their per-family branches, operand staging, loading results into R, and the final wipes.

The accelerator is a parameter `hw: HwCall -> HwReply`. It may succeed or
fail on any request and return any words. Each entry point returns its result
code, the new R, the event trace and the final contents of its staging
arrays. The contracts state:

- which code each path returns;
- which requests reach the accelerator, built from the parameter records read as intended (see Findings), in which order, and that they happen with the lock held;
- that the lock is taken at most once and always released;
- that R is left untouched on every failure and loaded from the accelerator's output on success;
- that every array an operand was staged into, or the accelerator wrote, is wiped later in the trace, and that every staging array is all zero at return.

## Model

| member | source | states |
|---|---|---|
| Bytes.CharsToLimbs | b91/adapter/hals/mbedtls/src/mbedtls/internal/ecp_alt_b91_backend.c:400 | the limb count is the least number of 4-byte limbs that holds n bytes |
| Bytes.CharsToLimbsOfWords | b91/adapter/hals/mbedtls/src/mbedtls/internal/ecp_alt_b91_backend.c:400 | a byte count that is a whole number of words maps to exactly that many limbs |
| Bytes.GetByteAt | b91/adapter/hals/mbedtls/src/mbedtls/internal/ecp_alt_b91_backend.c:397-398 | `GET_BYTE(X, 4q + j)` is byte j of limb q, `(X->p[q] >> 8j) & 0xff`, and index 4q + j lies among the stored bytes |
| Bytes.PackBytes | b91/adapter/hals/mbedtls/src/mbedtls/internal/ecp_alt_b91_backend.c:397-398 | `GET_BYTE` of a limb assembled from four bytes, each shifted by 8 times its position, returns each byte at its position |
| Bytes.UnpackLimb | b91/adapter/hals/mbedtls/src/mbedtls/internal/ecp_alt_b91_backend.c:397-398 | reassembling the four bytes `GET_BYTE` extracts gives the limb back |
| Bytes.LimbBytesValue | b91/adapter/hals/mbedtls/src/mbedtls/internal/ecp_alt_b91_backend.c:397-398 | the little-endian value of a limb's four extracted bytes is the limb |
| Bytes.LeBytesValue | b91/adapter/hals/mbedtls/src/mbedtls/internal/ecp_alt_b91_backend.c:397-398 | the byte image of a limb array under `GET_BYTE` has the same little-endian value as the limb array |
| Bytes.LimbsOfLeBytes | b91/adapter/hals/mbedtls/src/mbedtls/internal/ecp_alt_b91_backend.c:397-398 | packing a limb array's byte image back into limbs gives the same limbs |
| Bytes.LeBytesInjective | b91/adapter/hals/mbedtls/src/mbedtls/internal/ecp_alt_b91_backend.c:397-398 | two limb arrays with the same byte image are equal |
| Bytes.LeBytesOfLimbsOfBytes | b91/adapter/hals/mbedtls/src/mbedtls/internal/ecp_alt_b91_backend.c:463-464 | the byte image of bytes packed into limbs is the original bytes, zero-padded to a whole number of limbs |
| Bytes.LimbsOfBytesValue | b91/adapter/hals/mbedtls/src/mbedtls/internal/ecp_alt_b91_backend.c:463-464 | bytes packed into limbs keep their little-endian value |
| Bytes.BytesValueZero | b91/adapter/hals/mbedtls/src/mbedtls/internal/ecp_alt_b91_backend.c:420-424 | a byte string has value zero if and only if every byte is zero |
| Bytes.BytesValuePad | b91/adapter/hals/mbedtls/src/mbedtls/internal/ecp_alt_b91_backend.c:432-436 | padding a byte string with trailing zeros to a longer length keeps its value |
| Bytes.BytesValueAppendZeros | b91/adapter/hals/mbedtls/src/mbedtls/internal/ecp_alt_b91_backend.c:432-436 | appending zero bytes keeps the value |
| Codec.WriteBinaryLe | b91/adapter/hals/mbedtls/src/mbedtls/internal/ecp_alt_b91_backend.c:405-439 | the result is 0 or BUFFER_TOO_SMALL. It is BUFFER_TOO_SMALL exactly when some stored byte at or past buflen is non-zero, and then the buffer is unchanged. On success the buffer holds X's little-endian bytes, truncated or zero-padded to buflen |
| Codec.FitsInIffBelow | b91/adapter/hals/mbedtls/src/mbedtls/internal/ecp_alt_b91_backend.c:413-427 | the buffer-too-small test fails exactly when X's value is at least 256^buflen |
| Codec.FitsInHigh | b91/adapter/hals/mbedtls/src/mbedtls/internal/ecp_alt_b91_backend.c:413-427 | when buflen is at most X's stored bytes, X fits exactly when every stored byte from buflen on is zero, the loop the C code runs |
| Codec.WriteValue | b91/adapter/hals/mbedtls/src/mbedtls/internal/ecp_alt_b91_backend.c:405-439 | a successful write leaves a buffer whose little-endian value is X's value |
| Codec.Lset | b91/adapter/hals/mbedtls/src/mbedtls/internal/ecp_alt_b91_backend.c:461 | setting a one-limb value fails only when X has no limbs and growing it fails, leaving X as it was. Otherwise X has value z, at least one limb (never fewer than before) and all higher limbs zero |
| Codec.ReadBinaryLe | b91/adapter/hals/mbedtls/src/mbedtls/internal/ecp_alt_b91_backend.c:444-474 | the result is 0 or ALLOC_FAILED. It is ALLOC_FAILED exactly when the resize or the lset needs an allocation and allocation fails, leaving X freed. On success X has `CHARS_TO_LIMBS(buflen)` limbs (at least one) whose byte image is buf zero-padded |
| Codec.ReadStart | b91/adapter/hals/mbedtls/src/mbedtls/internal/ecp_alt_b91_backend.c:461 | an array of `CHARS_TO_LIMBS(buflen)` limbs, but at least one (the count `mbedtls_mpi_lset` leaves), all zero, is the state of the read loop before any byte is merged |
| Codec.ReadInto | b91/adapter/hals/mbedtls/src/mbedtls/internal/ecp_alt_b91_backend.c:464 | one iteration of the read loop takes the state after i bytes to the state after i+1 bytes |
| Codec.ReadStep | b91/adapter/hals/mbedtls/src/mbedtls/internal/ecp_alt_b91_backend.c:464 | OR-ing byte i, shifted by 8·(i mod 4), into limb i/4 adds exactly that byte's weight to that limb and changes no other limb |
| Codec.ReadStepAt | b91/adapter/hals/mbedtls/src/mbedtls/internal/ecp_alt_b91_backend.c:464 | the same step, stated for byte j of limb q |
| Codec.ReadBytes | b91/adapter/hals/mbedtls/src/mbedtls/internal/ecp_alt_b91_backend.c:463-464 | the read loop merges every byte of buf into its limb |
| Codec.ReadComplete | b91/adapter/hals/mbedtls/src/mbedtls/internal/ecp_alt_b91_backend.c:463-464 | after the loop, the limbs' byte image is buf zero-padded to a whole number of limbs |
| Codec.ReadValue | b91/adapter/hals/mbedtls/src/mbedtls/internal/ecp_alt_b91_backend.c:444-474 | a successful read gives X the value Σ buf[i]·256^i |
| Codec.WriteReadRoundTrip | b91/adapter/hals/mbedtls/src/mbedtls/internal/ecp_alt_b91_backend.c:405-474 | writing X and reading the buffer back gives X's value. When the buffer is exactly X's storage and X is set, it gives the same limbs |
| Codec.ReadWriteRoundTrip | b91/adapter/hals/mbedtls/src/mbedtls/internal/ecp_alt_b91_backend.c:405-474 | reading a buffer and writing the result to a buffer of the same length always fits and reproduces the buffer |
| CurveTables.AsWrittenOverridesPH | b91/adapter/hals/mbedtls/src/mbedtls/internal/ecp_alt_b91_backend.c:103-126 | as written, a table's second `.eccp_p_h` replaces the first and `p_n1` stays NULL, so the record is never well formed |
| CurveTables.AsWrittenMembers | b91/adapter/hals/mbedtls/src/mbedtls/internal/ecp_alt_b91_backend.c:103-126 | as written, p, a and b land in their members, p_h holds the second, one-word constant and p_n1 is left NULL |
| CurveTables.IntendedRecordsWellFormed | b91/adapter/hals/mbedtls/src/mbedtls/internal/ecp_alt_b91_backend.c:103-288 | read with `.eccp_p_n1` as the second designator, all seven short-Weierstrass tables give well-formed records: p, p_h, a and b are `GET_WORD_LEN` words long and p[0]·p_n1 ≡ −1 (mod 2^32). As written, none of them is well formed |
| CurveTables.IntendedMembers | b91/adapter/hals/mbedtls/src/mbedtls/internal/ecp_alt_b91_backend.c:103-126 | read as intended, each listed number lands in the member its position names |
| CurveTables.X25519WellFormed | b91/adapter/hals/mbedtls/src/mbedtls/internal/ecp_alt_b91_backend.c:292-311 | the x25519 record, whose constant is named `.mont_p_n1`, satisfies the same well-formedness, with a24 in place of a and b |
| CurveTables.WordLen | b91/adapter/hals/mbedtls/src/mbedtls/internal/ecp_alt_b91_backend.c:525 | the operand word length is the least number of 32-bit words that holds pbits bits |
| Curves.GetType | b91/adapter/hals/mbedtls/src/mbedtls/internal/ecp_alt_b91_backend.c:87-96 | NONE exactly when G.X is NULL; Montgomery exactly when G.X is set and G.Y is NULL; short Weierstrass exactly when both are set |
| Curves.GetTypeReadsOnlyPresence | b91/adapter/hals/mbedtls/src/mbedtls/internal/ecp_alt_b91_backend.c:87-96 | groups that agree on whether G.X is set, and (when it is) on whether G.Y is set, get the same type whatever their ids, bit lengths or coordinate values |
| Curves.Link | b91/adapter/hals/mbedtls/src/mbedtls/internal/ecp_alt_b91_backend.c:319-370 | the linking table's entry i pairs the i-th enabled group with the record built from the i-th table |
| Curves.AsWrittenLinking | b91/adapter/hals/mbedtls/src/mbedtls/internal/ecp_alt_b91_backend.c:319-370 | the record C's linking table actually points at for entry i is the linked record with its one-word constant moved into p_h and p_n1 left NULL |
| Curves.Lookup | b91/adapter/hals/mbedtls/src/mbedtls/internal/ecp_alt_b91_backend.c:477-491 | the reference lookup gives NULL exactly when no entry has the id, and otherwise gives the record of the first entry that has it |
| Curves.CurveGet | b91/adapter/hals/mbedtls/src/mbedtls/internal/ecp_alt_b91_backend.c:481-488 | the linear scan that stops at the first match agrees with the reference lookup |
| Curves.FirstMatchIsLookup | b91/adapter/hals/mbedtls/src/mbedtls/internal/ecp_alt_b91_backend.c:483-487 | the first matching index decides the lookup |
| Curves.EccpCurveGet | b91/adapter/hals/mbedtls/src/mbedtls/internal/ecp_alt_b91_backend.c:477-491 | gives a record exactly for the seven enabled short-Weierstrass groups |
| Curves.MontCurveGet | b91/adapter/hals/mbedtls/src/mbedtls/internal/ecp_alt_b91_backend.c:495-509 | gives a record exactly for Curve25519, and that record is x25519 |
| Curves.EccpIds | b91/adapter/hals/mbedtls/src/mbedtls/internal/ecp_alt_b91_backend.c:319-370 | the short-Weierstrass linking table has seven entries, for secp256r1, secp256k1, brainpoolP256r1, secp224r1, secp224k1, secp192r1 and secp192k1, in that order |
| Curves.EccpRegistered | b91/adapter/hals/mbedtls/src/mbedtls/internal/ecp_alt_b91_backend.c:319-370 | a group id is found in the short-Weierstrass table if and only if it is one of the seven enabled groups |
| Curves.GroupsDistinct | b91/adapter/hals/mbedtls/src/mbedtls/internal/ecp_alt_b91_backend.c:319-370 | no group appears twice in the short-Weierstrass list |
| Curves.RegistriesDisjoint | b91/adapter/hals/mbedtls/src/mbedtls/internal/ecp_alt_b91_backend.c:319-387 | no group id is registered in both tables, and none twice in the short-Weierstrass table |
| Curves.RegistryRecordsWellFormed | b91/adapter/hals/mbedtls/src/mbedtls/internal/ecp_alt_b91_backend.c:319-387 | every record the registries link to (read as intended) is well formed |
| Pke.Step | b91/adapter/hals/mbedtls/src/mbedtls/internal/ecp_alt_b91_backend.c:540-545 | the lock discipline: acquiring is allowed only when the lock is free, releasing only when it is held, and an accelerator call only while it is held. A violation breaks the lock, nothing else does, and a broken lock stays broken |
| Pke.InvokesUnderLock | b91/adapter/hals/mbedtls/src/mbedtls/internal/ecp_alt_b91_backend.c:586-596 | in every trace without a violation, the lock is held at every accelerator call, free at every acquisition (no nesting) and held at every release |
| Pke.LockBalance | b91/adapter/hals/mbedtls/src/mbedtls/internal/ecp_alt_b91_backend.c:665-688 | in a trace without a violation, acquisitions equal releases when the lock ends free, and exceed them by one when it ends held |
| Pke.DisciplinedTrace | b91/adapter/hals/mbedtls/src/mbedtls/internal/ecp_alt_b91_backend.c:665-688 | a trace that ends with the lock free, as every entry point's does, makes each accelerator call under the lock, never takes the lock while it is held, and releases it exactly as often as it takes it |
| Bridge.OperandMeaning | b91/adapter/hals/mbedtls/src/mbedtls/internal/ecp_alt_b91_backend.c:537-538 | staging an mpi into a word_len array keeps the array's length. If the value fits, the array holds that value. If it does not, the write fails and the array keeps its earlier contents |
| Bridge.StageOperand | b91/adapter/hals/mbedtls/src/mbedtls/internal/ecp_alt_b91_backend.c:537-538 | the `(void)`-discarded write into a staging array has the effect `OperandMeaning` describes |
| Bridge.StageInto | b91/adapter/hals/mbedtls/src/mbedtls/internal/ecp_alt_b91_backend.c:582-584 | one discarded write of an mpi into a named array leaves `Operand` of the array's earlier words there and adds one staging event to the trace |
| Bridge.LoadCoordinate | b91/adapter/hals/mbedtls/src/mbedtls/internal/ecp_alt_b91_backend.c:589-590 | the discarded read of accelerator output into a coordinate of R either succeeds or frees the coordinate. When the needed allocation is available, the coordinate takes the output's value |
| Bridge.LoadInto | b91/adapter/hals/mbedtls/src/mbedtls/internal/ecp_alt_b91_backend.c:589-590 | one discarded read of a named array into a coordinate of R has the effect `LoadedFrom` describes and adds one load event to the trace |
| Bridge.SetInto | b91/adapter/hals/mbedtls/src/mbedtls/internal/ecp_alt_b91_backend.c:591 | the discarded `mbedtls_mpi_lset` of a coordinate of R has the effect `SetFrom` describes and adds one load event to the trace |
| Bridge.LoadedValue | b91/adapter/hals/mbedtls/src/mbedtls/internal/ecp_alt_b91_backend.c:589-590 | a coordinate loaded from word_len words has those words' value and max(word_len, 1) limbs |
| Bridge.LoadThenStage | b91/adapter/hals/mbedtls/src/mbedtls/internal/ecp_alt_b91_backend.c:589-590 | a coordinate loaded from the accelerator's words stages back into a word_len array as exactly those words |
| Bridge.CurveRecordsExclusive | b91/adapter/hals/mbedtls/src/mbedtls/internal/ecp_alt_b91_backend.c:570-610 | at most one branch of mul finds a record. The short-Weierstrass branch finds one exactly for an enabled short-Weierstrass group, and the Montgomery branch exactly for Curve25519 classified as Montgomery |
| Bridge.WipeAll | b91/adapter/hals/mbedtls/src/mbedtls/internal/ecp_alt_b91_backend.c:625-627 | the closing memsets clear every named array to word_len zero words, whatever staging and the accelerator left in it, and leave every other array as it was. They add one wipe event per array, in order, so every array the trace staged into is wiped after its staging, and they do not touch the lock or the accelerator |
| Bridge.VerifyWeierstrass | b91/adapter/hals/mbedtls/src/mbedtls/internal/ecp_alt_b91_backend.c:537-545 | Q.X and Q.Y are staged into the arrays Qx and Qy, and one point-verify request reads them there, made under a lock taken once and released. The result is 0 exactly when the accelerator accepts the point, and INVALID_KEY otherwise |
| Bridge.VerifyDispatch | b91/adapter/hals/mbedtls/src/mbedtls/internal/ecp_alt_b91_backend.c:530-547 | without a short-Weierstrass record, the result is FEATURE_UNSUPPORTED and there is no lock and no call. With one, it is the verify above |
| Bridge.CheckPubkey | b91/adapter/hals/mbedtls/src/mbedtls/internal/ecp_alt_b91_backend.c:517-555 | gives BAD_INPUT_DATA for a NULL argument and FEATURE_UNSUPPORTED for an over-wide curve, touching nothing. Otherwise the request reads the coordinates staged over the stack's leftover words, Qx and Qy are wiped after staging and are the only arrays at return, both zero, and the lock discipline holds. A registered short-Weierstrass curve makes exactly one verify call and gives 0 or INVALID_KEY by its outcome; any other curve gives FEATURE_UNSUPPORTED with no call |
| Bridge.MulWeierstrass | b91/adapter/hals/mbedtls/src/mbedtls/internal/ecp_alt_b91_backend.c:575-598 | m, P.X and P.Y are staged into ms, Qx and Qy, and one point-multiply request reads them there under a lock taken once. The accelerator writes its output over Qx and Qy. On failure the result is HW_ACCEL_FAILED and R is unchanged. On success R.X and R.Y are loaded from Qx and Qy and R.Z is set to 1 |
| Bridge.MulMontgomery | b91/adapter/hals/mbedtls/src/mbedtls/internal/ecp_alt_b91_backend.c:601-622 | m and P.X are staged into ms and Qx, and one x25519 request reads them there under a lock taken once. The accelerator writes its output over Qx. On failure the result is HW_ACCEL_FAILED and R is unchanged. On success R.X is loaded from Qx, R.Y is set to 0 and R.Z to 1 |
| Bridge.MulDispatch | b91/adapter/hals/mbedtls/src/mbedtls/internal/ecp_alt_b91_backend.c:572-623 | selects the branch whose record exists. Without one, the result is FEATURE_UNSUPPORTED with no lock and no call; any failure leaves R unchanged |
| Bridge.Mul | b91/adapter/hals/mbedtls/src/mbedtls/internal/ecp_alt_b91_backend.c:557-631 | BAD_INPUT_DATA for a NULL argument, FEATURE_UNSUPPORTED for an over-wide curve or a group with no record, HW_ACCEL_FAILED when the accelerator fails, and 0 otherwise. R changes only on success, and then as the taken branch loads it. Whenever the arrays exist, the request reads the operands staged over the stack's leftover words, R is loaded from what the accelerator wrote into Qx and Qy, every staged array is wiped after its staging, ms, Qx and Qy are the only arrays at return, all zero, and the lock is taken at most once and released |
| Bridge.ProductCalls | b91/adapter/hals/mbedtls/src/mbedtls/internal/ecp_alt_b91_backend.c:666-686 | muladd's request sequence stops at the first failing request: one to three requests, every one but the last succeeded, and a sequence shorter than three ends with the request that failed |
| Bridge.AddAndLoad | b91/adapter/hals/mbedtls/src/mbedtls/internal/ecp_alt_b91_backend.c:677-683 | the point-add request on Q1 and Q2, made with the lock held; the accelerator writes the sum over Q1. Failure leaves R unchanged. Success loads R.X and R.Y from Q1 and sets R.Z to 1 |
| Bridge.Products | b91/adapter/hals/mbedtls/src/mbedtls/internal/ecp_alt_b91_backend.c:666-686 | inside the lock: m is staged into ms and m·P overwrites Q1, then n is staged over ms and n·Q overwrites Q2, then the sum overwrites Q1, stopping at the first failure. The result is 0 exactly when all three succeed; otherwise HW_ACCEL_FAILED with R unchanged |
| Bridge.StageBoth | b91/adapter/hals/mbedtls/src/mbedtls/internal/ecp_alt_b91_backend.c:658-661 | before the lock: P.X, P.Y, Q.X and Q.Y are written into Q1x, Q1y, Q2x and Q2y, in that order, each as `Operand` of the array's earlier words. The trace gains those four stagings and nothing else: no lock, no call |
| Bridge.MuladdWeierstrass | b91/adapter/hals/mbedtls/src/mbedtls/internal/ecp_alt_b91_backend.c:652-691 | the staged points, the request sequence above under a lock taken once and released, and R loaded from the sum on success |
| Bridge.MuladdDispatch | b91/adapter/hals/mbedtls/src/mbedtls/internal/ecp_alt_b91_backend.c:648-692 | Montgomery groups and groups without a short-Weierstrass record give FEATURE_UNSUPPORTED with no lock and no call |
| Bridge.Muladd | b91/adapter/hals/mbedtls/src/mbedtls/internal/ecp_alt_b91_backend.c:633-701 | BAD_INPUT_DATA for a NULL argument, FEATURE_UNSUPPORTED for an over-wide or unsupported curve, HW_ACCEL_FAILED when any of the three requests fails, and 0 otherwise. R changes only on success. Whenever the arrays exist, the requests read the operands staged over the stack's leftover words, R is loaded from the sum the accelerator wrote into Q1, every staged array is wiped after its staging, the five arrays are the only ones at return, all zero, and the lock is taken at most once and released |

## Left out

- The PKE driver (`pke_eccp_point_verify`, `pke_eccp_point_mul`, `pke_eccp_point_add`, `pke_x25519_point_mul`) is hardware behind a register interface. It is the oracle `Env.hw`, so no curve arithmetic is modelled.
- `mbedtls_ecp_lock` and `mbedtls_ecp_unlock` are events in the trace. The mutex implementation and concurrent callers are not modelled.
- `GET_WORD_LEN` and `PKE_OPERAND_MAX_WORD_LEN` come from the PKE driver header, which is not part of this model. The word length is taken as ceil(pbits/32), and the maximum is the parameter `Env.maxWords`.
- Allocation inside `mbedtls_mpi_grow` is a parameter: one flag per coordinate of R that says whether an allocation for it succeeds. The mpi internals (`mbedtls_mpi_free`, `mbedtls_mpi_init`, `mbedtls_mpi_grow`, and the sign field, which the bridge never reads) are not part of this model. Freeing and growing are modelled by their effect on the limb array only.
- An mpi's NULL limb pointer is modelled as an empty limb array; mbedtls keeps the two together.
- Uninitialised variable-length staging arrays hold arbitrary words, given by the parameter `Env.stack`.
- The result of every staging write is discarded, as the C code does. For secp224k1, whose order has 225 bits, a scalar of 225 bits does not fit in 7 words: the write fails and the accelerator sees the stack's leftover words. In muladd, a failed write of n leaves m's words in ms. The model reproduces both rather than forbidding them.
- The preprocessor configuration is fixed: `ECP_SHORTWEIERSTRASS` and `ECP_MONTGOMERY` are both defined and every table-backed group is enabled. Other configurations are not modelled.
- The numeric value of each `Status` code comes from the mbedtls error headers, which are not part of this model.
- The coefficients a and b and the x25519 a24 constant are carried as data. Their arithmetic meaning for the curve is not modelled.
- The code loads R's coordinates, and in muladd stages the scalars m and n, while the lock is held. The model keeps that order.
- Curves.Link: the linking tables point at the parameter records read as intended, with the one-word constant in `p_n1`. C's `eccp_curve_linking` points at the tables as written, whose `p_n1` is NULL (see Findings); `Curves.AsWrittenLinking` states how the two differ. The entry points' contracts therefore describe the requests the corrected tables give, not the requests with a NULL `p_n1` that the code as written sends.
- `blt_fw_sign.c` and the platform headers are not part of this model.

## Findings

| source | as written | input that shows it | evidently intended | confidence | as-written member | corrected member |
|---|---|---|---|---|---|---|
| b91/adapter/hals/mbedtls/src/mbedtls/internal/ecp_alt_b91_backend.c:110-114 | every short-Weierstrass table names `.eccp_p_h` twice; under C's rule the second, one-word array replaces the first and `eccp_p_n1` stays NULL | the secp256r1 table (and the six others at 137/141, 164/168, 191/195, 218/222, 245/249, 272/276) | the second designator is `.eccp_p_n1`: its one word n1 satisfies p[0]·n1 ≡ −1 (mod 2^32) for every table, as x25519's correctly named `.mont_p_n1` does | not executed | CurveTables.AsWrittenOverridesPH | CurveTables.IntendedRecordsWellFormed |
