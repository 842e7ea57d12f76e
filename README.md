# Credential store and coin-search game, modelled in Dafny

This project models two pieces of a small Python repository.

**The credential store (`password_store.py`).** A SQLite file holds a table `users`. Each row stores a username, a salted PBKDF2-HMAC-SHA256 hash, the salt, the iteration count and two timestamps. The model is the class `PasswordStore.CredentialDatabase`. The class stands for one database file. Its state is:

- whether the table has been created;
- the table itself, a map from username to row;
- the AUTOINCREMENT counter. Every upsert advances it, also one that updates an existing row: SQLite draws the new id before the UNIQUE conflict turns the statement into an update.

Each SQL statement is one atomic method on the class:

- `InitializeDatabase` is `CREATE TABLE IF NOT EXISTS`.
- `CreateUser` is the `INSERT ... ON CONFLICT(username) DO UPDATE` upsert.
- `VerifyUser` looks up a row and recomputes the hash with the row's own salt and iteration count.
- `ListUsers` is the `SELECT ... ORDER BY username` query.

The pure logic under these methods is written as functions over the table, with lemmas about them: `Upsert`, `Verify` and the listing predicates. Three things the source gets from outside are handled as follows:

- Base64 (section 4 of RFC 4648) is written out in full in module `Base64`, and its round trip is proved.
- PBKDF2 (section 5.2 of RFC 8018) is a function value `kdf` given to the store when it is made. Nothing is assumed about it except that it is a function, so the same inputs always give the same digest.
- `ORDER BY username` uses SQLite's BINARY collation, which compares UTF-8 bytes. That is the same as lexicographic order on code points, defined in module `Collation`.

The code checks nothing when it writes a row: not an empty username, not the iteration count. The model adds no such checks.

**The coin-search game (`piscina_da_moeda.py`).** A `Piscina` is a grid with a hidden coin, a count of remaining attempts and an append-only history of searches. `Piscina.Criar` rejects grids whose sides are not positive and computes the attempt budget. `RegistrarBusca` refuses to run once the budget is spent. Otherwise it spends one attempt and records one search. The object invariant `Valid` says three things:

- history length plus remaining attempts always equals the initial budget;
- the counter never goes negative;
- every recorded distance is the true distance to the coin.

Distances are squared integers. A squared distance is zero exactly when the Euclidean distance is zero. `ObterHint` is the first-match lookup in the `HINTS` table, over `real` numbers. A lemma reads the hint off the squared distance.

Inputs that are random or come from the clock are method parameters:

- the salt (`os.urandom`);
- the time of the write (`datetime.utcnow`);
- the coin's cell (`random.randrange`).

## Model

| member | source | states |
|---|---|---|
| `Base64.Encode` | password_store.py:72-73 | the base64 text of n bytes has 4·⌈n/3⌉ characters |
| `Base64.DecodeEncode` | password_store.py:72-77 | decoding the base64 text of any byte sequence gives that sequence back |
| `Base64.EncodeAscii` | password_store.py:72-73 | base64 text contains only ASCII characters, so `decode("ascii")` of it cannot fail |
| `Base64.Decode` | password_store.py:76-77 | text decodes only if it is whole 4-character groups of ASCII characters; n groups give between 3n−2 and 3n bytes |
| `Collation.BeforeIrreflexive` | password_store.py:135 | no username sorts before itself |
| `Collation.BeforeTransitive` | password_store.py:135 | the username order is transitive |
| `Collation.BeforeTotal` | password_store.py:135 | of two different usernames, one sorts before the other |
| `PasswordStore.HashPassword` | password_store.py:61-69 | the stored hash is ASCII text, so `decode("ascii")` cannot fail, and it decodes back to the PBKDF2 digest of the password, salt and iteration count |
| `PasswordStore.EncodeSalt` | password_store.py:72-73 | the stored salt is ASCII text, 24 characters for a 16-byte salt |
| `PasswordStore.DecodeSalt` | password_store.py:76-77 | a salt text reads back only if it is ASCII and a multiple of 4 characters long, and the model gives None for any other text; 24 characters give 16 to 18 bytes |
| `PasswordStore.SaltRoundTrip` | password_store.py:72-77 | `_decode_salt(_encode_salt(s)) == s` for every salt |
| `PasswordStore.Upsert` | password_store.py:89-106 | a new username gets exactly one new row with the next id (greater than every earlier id); the counter advances by one on every call, insert or update, the given hash, salt and iterations, and created_at = updated_at = the timestamp; an existing username keeps the row count, its id and created_at, and only hash, salt, iterations and updated_at change; every other row is untouched; the schema invariant (one row per username, unique ids below the counter) is preserved |
| `PasswordStore.Verify` | password_store.py:111-127 | an unknown user gives false, not an error; an undecodable salt raises; a decodable salt with an iteration count below 1 raises (ValueError), above 2^31−1 raises (OverflowError); it raises in no other case; true only for an existing user; on rows written by the store verification never raises |
| `PasswordStore.VerifyAfterUpsert` | password_store.py:124-127 | right after a password is stored with any iteration count PBKDF2 accepts (1 to 2^31−1), verifying it gives true, because the row's own salt and iteration count are used |
| `PasswordStore.VerifyUnaffectedByOtherUpsert` | password_store.py:93-97 | storing one user's password does not change the verification result of any other user |
| `PasswordStore.SortedCons` | password_store.py:135 | a summary that sorts before every entry of a sorted listing can head it |
| `PasswordStore.InsertByUsername` | password_store.py:135 | placing a new username into a listing sorted by username keeps it sorted and adds exactly that entry |
| `PasswordStore.InsertKeepsListing` | password_store.py:130-137 | adding one row's summary to an exact listing of some users gives an exact listing of those users and that one |
| `PasswordStore.ListingStep` | password_store.py:130-137 | one step of the listing moves exactly one row from pending to listed |
| `PasswordStore.SortedListing` | password_store.py:130-137 | the result has one (id, username, created_at, updated_at) entry per row, equal to that row's columns, in strictly ascending username order, and no hash or salt |
| `PasswordStore.CredentialDatabase.constructor` | password_store.py:38-54 | a new database file has no users table yet |
| `PasswordStore.CredentialDatabase.InitializeDatabase` | password_store.py:38-54 | afterwards the table exists and every row is unchanged, so repeated calls are no-ops |
| `PasswordStore.CredentialDatabase.CreateUser` | password_store.py:80-108 | the table becomes the upsert of the row hashed with 390000 iterations, the base64 salt and the timestamp with suffix "Z"; afterwards that user's password verifies |
| `PasswordStore.CredentialDatabase.VerifyUser` | password_store.py:111-127 | gives the result of `Verify` on the current table, never raises on the store's own rows, and changes no row |
| `PasswordStore.CredentialDatabase.ListUsers` | password_store.py:130-137 | gives the exact sorted listing of the current table and changes no row |
| `PiscinaDaMoeda.DistanciaQuadrada` | piscina_da_moeda.py:18-21 | the distance between two cells is zero exactly when the cells are equal |
| `PiscinaDaMoeda.TentativasIniciais` | piscina_da_moeda.py:34 | the attempt budget is max(5, linhas·colunas div 3) |
| `PiscinaDaMoeda.Piscina.constructor` | piscina_da_moeda.py:31-35 | a valid pool starts with the full budget, an empty history and the coin at the drawn cell |
| `PiscinaDaMoeda.Piscina.Criar` | piscina_da_moeda.py:27-38 | fails with an error exactly when a side is not positive; otherwise gives a valid pool with the full budget, an empty history and the coin inside the grid |
| `PiscinaDaMoeda.Piscina.TentativasRestantes` | piscina_da_moeda.py:40-42 | the remaining attempts, between 0 and the initial budget |
| `PiscinaDaMoeda.Piscina.Historico` | piscina_da_moeda.py:44-46 | equals the internal history, whose length plus the remaining attempts is the initial budget and whose distances are the true squared distances to the coin |
| `PiscinaDaMoeda.Piscina.RevelarMoeda` | piscina_da_moeda.py:65-66 | the coin, which lies inside the grid and never changes |
| `PiscinaDaMoeda.Piscina.RegistrarBusca` | piscina_da_moeda.py:48-63 | with no attempt left: an error, and neither counter nor history changes; otherwise: the counter drops by exactly 1, exactly one (guess, distance) entry is appended with earlier entries unchanged, and "found" holds exactly when the guess is the coin's cell |
| `PiscinaDaMoeda.Dica` | piscina_da_moeda.py:76-80 | for any threshold table, the message is that of the first threshold the distance reaches, and the final message when it reaches none |
| `PiscinaDaMoeda.ObterHint` | piscina_da_moeda.py:69-80 | distance ≥ 2.5 gives the first hint, [1.5, 2.5) the second, [0.5, 1.5) the third, below 0.5 the final message |
| `PiscinaDaMoeda.DicaPelaDistanciaQuadrada` | piscina_da_moeda.py:69-80 | for a search with squared distance d2 the hint bands are d2 ≥ 7, 3 ≤ d2 < 7, 1 ≤ d2 < 3 and d2 = 0, so the final message is given exactly when the coin is found |

## Left out

- SQLite connection handling is not modelled: `_connect`, the foreign-key PRAGMA, the SQL text, commit and close. Each statement is one atomic method.
- Transactions and concurrent access are not modelled. The model is sequential.
- PBKDF2-HMAC-SHA256 internals are not modelled, and neither is the 32-byte length of its digest. The model does not assume injectivity, so there is no "a wrong password gives false" property.
- The UTF-8 encoding of the password is part of the `kdf` function. The error Python raises for strings that cannot be encoded (lone surrogates) is not modelled.
- `hashlib.compare_digest` is modelled as string equality. Its constant-time behaviour is a timing property. The TypeError it raises for non-ASCII strings can only happen for tampered rows and is not modelled.
- Base64.Decode: accepts only text laid out as in section 4 of RFC 4648 and returns None for anything else. Python's `b64decode` is more lenient in two ways. It silently discards characters outside the alphabet. It also stops at the first complete padding and ignores what follows, so "QQ==QUJD" gives b"A" in Python and None here. The two agree on everything the store writes.
- PasswordStore.DecodeSalt: inherits the strictness of Base64.Decode. For non-ASCII text both give up: `encode("ascii")` raises in Python and the model gives None. For ASCII text that `b64decode` accepts only leniently, Python returns bytes while the model gives None: "QUJD\n" gives b"ABC" in Python. `verify_user` then reports a corrupt salt where Python would go on to hash.
- `os.urandom`, `datetime.utcnow` and `random.randrange` are parameters. `CreateUser` requires a 16-byte salt. The timestamp parameter is the ISO 8601 text to the second.
- SQLite's 64-bit limit on ids (an insert beyond it fails) is not modelled. Ids are unbounded integers.
- Rows written by other programs are not modelled by the class. The store's invariant says every row was written by `CreateUser`.
- PasswordStore.Verify: handles a tampered row with an undecodable salt or an iteration count outside 1 to 2^31−1. Other raises from the libraries are not modelled. A row whose columns are not text and integers (SQLite's columns are dynamically typed) gives a TypeError in Python; the model's row type cannot hold such values. A salt text that `b64decode` accepts only leniently gives a Failure here, as described under Base64.Decode. The TypeError of `compare_digest` is described above.
- PiscinaDaMoeda.Piscina.RegistrarBusca: returns and records the squared distance instead of the floating-point Euclidean distance from `math.hypot`. Both are zero in the same cases, so "found" is the same.
- PiscinaDaMoeda.Piscina.RegistrarBusca: does not model the OverflowError `math.hypot` raises when a coordinate difference is too large for a float (about 1.8e308 or more, e.g. `Posicao(10**309, 0)`). The source decrements the counter before computing the distance, so that call uses up an attempt without recording a search. History length plus remaining attempts then falls one short of the initial budget. The model has no such failure, and its invariant holds for every guess. The game itself only passes cells inside the grid, so it never reaches this case.
- PiscinaDaMoeda.DistanciaQuadrada: is exact for all integers; there is no float overflow.
- PiscinaDaMoeda.DicaPelaDistanciaQuadrada: assumes the exact square root. `math.hypot` rounds, which could matter only for values at a threshold. No squared integer distance lies on one: 6.25, 2.25 and 0.25 are not integers.
- The hint lookup compares `real` numbers, not IEEE floats.
- The command-line interface (`main`, argparse) and printed messages are not modelled.
- The interactive game (`ler_inteiro`, `jogar`) is not modelled.
