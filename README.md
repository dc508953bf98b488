# Password generator API — Dafny model

This project models the password generator of a small FastAPI service
(`backend/main.py`). The generator `generate_password(length,
include_numbers, include_special_chars)` builds a character pool: the 52 ASCII
letters, then the 10 digits when `include_numbers` is set, then the fixed set
`!@#$%^&*()_+-=[]{}|;:,.<>?` when `include_special_chars` is set. It then joins
one `random.choice(pool)` per iteration of `range(length)`. The
`/generate-password` handler `create_password` calls it inside a try/except. It
returns `{password, success: true}`, or `{error, success: false}` when the
generator raises.

Modules:

- `Wrappers` (wrappers.dfy): `Result`, a value or the message of a raised exception.
- `Charsets` (charsets.dfy): the constants `string.ascii_letters` and
  `string.digits` that the generator uses, the special-character literal, and
  their properties: size, membership by code-point range, no duplicates, no
  overlap.
- `Generator` (generator.dfy): the pool, `random.choice`, the join, and
  `generate_password`.
- `Api` (api.dfy): the request, the response envelope and `create_password`.

The process-wide random generator becomes an explicit sequence of draws
(`seq<nat>`). The i-th `random.choice` gets `draws[i]`, reduced into the pool's
index range. A draw below the pool size selects exactly that pool position.
`random.choice` raises on an empty pool, so the model keeps that exception
path. It proves the path is never taken, because the pool always holds at
least 52 characters.

Negative lengths follow the code. `range(length)` is empty for `length <= 0`,
so the generator returns the empty string and the handler answers with
success. Rejecting negative lengths would be the stricter policy. The code does not
reject them, and the model follows the code.

## Model

| member | source | states |
|---|---|---|
| `Charsets.LettersLayout` | backend/main.py:28 | `string.ascii_letters` has 52 characters: 26 lowercase letters, then 26 uppercase ones |
| `Charsets.LettersMembership` | backend/main.py:28 | a character is in `string.ascii_letters` iff it lies in `a`..`z` or `A`..`Z` |
| `Charsets.DigitsMembership` | backend/main.py:32 | a character is in `string.digits` iff it lies in `0`..`9` |
| `Charsets.SpecialsAreSymbols` | backend/main.py:36 | the special set has 26 characters, none of them a letter or a digit |
| `Charsets.SetsDistinct` | backend/main.py:28-36 | letters, digits and specials each list every character once |
| `Charsets.SetsDisjoint` | backend/main.py:28-36 | no character belongs to two of the three sets |
| `Generator.Pool` | backend/main.py:27-36 | pool size is 52 + 10 (numbers) + 26 (specials); letters come first, then digits at positions 52..61 when enabled, then the specials as the last 26 when enabled |
| `Generator.PoolMembership` | backend/main.py:28-36 | a character is in the pool iff it is a letter, or a digit with numbers on, or a special with specials on |
| `Generator.LettersOnlyPool` | backend/main.py:28 | with both flags off the pool is exactly the 52 letters |
| `Generator.PoolDistinct` | backend/main.py:28-36 | the pool is never empty (at least 52) and has no duplicate character |
| `Generator.Choice` | backend/main.py:39 | `random.choice` raises exactly on an empty pool; otherwise it yields a pool character, the one at the draw's position when the draw is in range |
| `Generator.Draw` | backend/main.py:39 | the join fails iff the pool is empty and there is something to draw; otherwise the string has one character per draw, character i being the choice made with draw i |
| `Generator.GeneratePassword` | backend/main.py:26-40 | never raises; the result has `length` characters (empty when `length < 0`); every character is in the pool; character i is `pool[draws[i]]` for in-range draws |
| `Generator.GeneratedCharacterClasses` | backend/main.py:31-39 | every generated character is a letter, a digit only if numbers were requested, or a special only if specials were requested |
| `Generator.DeterminedByConsumedDraws` | backend/main.py:39 | the same flags, length and consumed draws give the same password |
| `Generator.ShorterIsPrefix` | backend/main.py:39 | draws are consumed in order: a shorter password from the same draws is a prefix of a longer one |
| `Generator.EveryPasswordReachable` | backend/main.py:39 | every string over the pool is produced by some in-range draws, so the model constrains the output to the pool and no further |
| `Api.Envelope` | backend/main.py:45-53 | the envelope's `success` is true iff generation returned; it carries the password, or the exception's message |
| `Api.CreatePassword` | backend/main.py:44-53 | every request gets a success envelope whose password has `max(length, 0)` characters, all from the pool the flags select |
| `Api.ErrorEnvelopeNeedsEmptyPool` | backend/main.py:52-53 | the error envelope arises iff the pool is empty and something is drawn, and then carries `random.choice`'s message |
| `Api.AlwaysSucceeds` | backend/main.py:45-51 | the handler's response is the success envelope holding exactly the generator's password |
| `Api.NonPositiveLengthGivesEmptyPassword` | backend/main.py:39-51 | a length of zero or less is answered with `{password: "", success: true}` |
| `Api.TwelveAlphanumeric` | backend/main.py:44-51 | a request for 12 characters with digits and no specials gets 12 characters, each a letter or a digit |

## Left out

- FastAPI app creation, CORS middleware and the uvicorn start-up (backend/main.py:8-17, 61-63): framework configuration and server I/O.
- Validation of `PasswordRequest` by pydantic (backend/main.py:20-23): the model takes an already-typed length and two flags. A malformed body never reaches the handler.
- The health-check endpoint `root` (backend/main.py:56-58): it returns a constant message.
- The random generator itself: draws are a parameter. The model makes no claim about uniformity, independence or cryptographic strength.
- The `async` handlers: there is no concurrency, so they are plain functions.
- Api.CreatePassword: memory is taken to be unbounded. For a huge length, Python raises `MemoryError`, a subclass of `Exception`. The `except Exception` at backend/main.py:52 catches it and the handler answers `{error: ..., success: false}`. So the `success` guarantee holds only when memory suffices. `random.choice`'s error on an empty pool is the only other exception the modelled code could raise.
- Api.AlwaysSucceeds: holds only under the same unbounded-memory assumption as `CreatePassword`.
