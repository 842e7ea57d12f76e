/**
 * The credential table of password_store.py: a SQLite table "users" holding one
 * row per username with a salted, iterated PBKDF2-HMAC-SHA256 hash. The database
 * file is an object of class CredentialDatabase; each SQL statement is one atomic
 * method on it, and the table itself is a map from username to row together with
 * the AUTOINCREMENT counter (the sqlite_sequence entry of the table).
 */
module PasswordStore {
  import opened Wrappers
  import opened Base64
  import opened Collation

  /** Work factor written into every new or replaced row. */
  const PBKDF2_ITERATIONS: int := 390000

  /** Length of the random salt drawn for every write. */
  const SALT_BYTES: int := 16

  /** The largest iteration count hashlib.pbkdf2_hmac accepts: the C int maximum, 2^31 - 1. */
  const MAX_ITERATIONS: int := 0x7fff_ffff

  /**
   * PBKDF2 with HMAC-SHA256 (section 5.2 of RFC 8018) applied to the UTF-8 bytes of
   * a password, a salt and an iteration count. The model knows nothing of it but
   * that it is a function: the same inputs always give the same digest.
   */
  type Kdf = (string, seq<Byte>, int) -> seq<Byte>

  /** One row of the users table; hash and salt are stored as base64 text. */
  datatype Row = Row(
    id: int,
    username: string,
    passwordHash: string,
    salt: string,
    iterations: int,
    createdAt: string,
    updatedAt: string)

  /** The users table: rows keyed by their (unique) username, and the id the next insert receives. */
  datatype Table = Table(rows: map<string, Row>, nextId: int)

  /** A row of the listing: the columns that are not secret. */
  datatype UserSummary = UserSummary(id: int, username: string, createdAt: string, updatedAt: string)

  /** What verification raises on a row it cannot use. */
  datatype VerifyError =
    | CorruptSalt         // the stored salt is not base64 text
    | InvalidIterations   // PBKDF2 refuses an iteration count below 1 (ValueError)
    | IterationsTooLarge  // PBKDF2 refuses an iteration count above MAX_ITERATIONS (OverflowError)

  const EmptyTable := Table(map[], 1)

  /** The schema's guarantees: the username column is the key, ids are unique and below the counter. */
  predicate WellFormed(t: Table) {
    && 1 <= t.nextId
    && (forall u :: u in t.rows ==> t.rows[u].username == u && 1 <= t.rows[u].id < t.nextId)
    && (forall u, v :: u in t.rows && v in t.rows && u != v ==> t.rows[u].id != t.rows[v].id)
  }

  /** Every row was written by CreateUser: its salt decodes to SALT_BYTES bytes and it uses the default work factor. */
  predicate WrittenByStore(t: Table) {
    forall u :: u in t.rows ==>
      && DecodeSalt(t.rows[u].salt).Some?
      && |DecodeSalt(t.rows[u].salt).value| == SALT_BYTES
      && t.rows[u].iterations == PBKDF2_ITERATIONS
  }

  /**
   * The stored form of a digest: base64 text that is pure ASCII, so its decode("ascii")
   * cannot fail, and that reads back as the digest.
   */
  function HashPassword(kdf: Kdf, password: string, salt: seq<Byte>, iterations: int): (h: string)
    ensures forall i :: 0 <= i < |h| ==> IsAscii(h[i])
    ensures Decode(h) == Some(kdf(password, salt, iterations))
  {
    var digest := kdf(password, salt, iterations);
    EncodeAscii(digest);
    DecodeEncode(digest);
    Encode(digest)
  }

  /** The stored form of a salt: ASCII base64 text, 24 characters for a 16-byte salt. */
  function EncodeSalt(salt: seq<Byte>): (e: string)
    ensures forall i :: 0 <= i < |e| ==> IsAscii(e[i])
    ensures |salt| == SALT_BYTES ==> |e| == 24
  {
    EncodeAscii(salt);
    Encode(salt)
  }

  /**
   * Reads a stored salt back. Only ASCII text made of whole base64 groups reads back;
   * any other text gives None (b64decode is more lenient, see Base64.Decode).
   */
  function DecodeSalt(encoded: string): (r: Option<seq<Byte>>)
    ensures r.Some? ==> forall i :: 0 <= i < |encoded| ==> IsAscii(encoded[i])
    ensures r.Some? ==> |encoded| % 4 == 0
    ensures |encoded| == 24 && r.Some? ==> 16 <= |r.value| <= 18
  {
    Decode(encoded)
  }

  /** A stored salt always reads back as the salt that was stored. */
  lemma SaltRoundTrip(salt: seq<Byte>)
    ensures DecodeSalt(EncodeSalt(salt)) == Some(salt)
  {
    DecodeEncode(salt);
  }

  /**
   * The INSERT ... ON CONFLICT(username) DO UPDATE statement: a new username gets a
   * row with the next id and both timestamps set; an existing one keeps its id and
   * created_at and has hash, salt, iterations and updated_at replaced. Either way
   * the counter advances: SQLite draws the AUTOINCREMENT id before the UNIQUE
   * conflict sends the statement to DO UPDATE, and records it at the end of the
   * statement, so an update also uses up an id.
   */
  function Upsert(t: Table, username: string, passwordHash: string, salt: string, iterations: int, timestamp: string): (r: Table)
    ensures username in r.rows
    ensures username !in t.rows ==>
      && r.rows[username] == Row(t.nextId, username, passwordHash, salt, iterations, timestamp, timestamp)
      && |r.rows| == |t.rows| + 1
    ensures username in t.rows ==>
      && r.rows[username] == t.rows[username].(passwordHash := passwordHash, salt := salt, iterations := iterations, updatedAt := timestamp)
      && |r.rows| == |t.rows|
    ensures r.nextId == t.nextId + 1
    ensures forall v :: v != username ==> (v in r.rows <==> v in t.rows)
    ensures forall v :: v != username && v in t.rows ==> r.rows[v] == t.rows[v]
    ensures WellFormed(t) ==> WellFormed(r)
    ensures WellFormed(t) && username !in t.rows ==> forall v :: v in t.rows ==> t.rows[v].id < r.rows[username].id
  {
    if username in t.rows then
      var row := t.rows[username];
      Table(t.rows[username := row.(passwordHash := passwordHash, salt := salt, iterations := iterations, updatedAt := timestamp)], t.nextId + 1)
    else
      Table(t.rows[username := Row(t.nextId, username, passwordHash, salt, iterations, timestamp, timestamp)], t.nextId + 1)
  }

  /**
   * The lookup and comparison of verify_user: an unknown user is not an error but
   * false; otherwise the salt is decoded (which raises on a corrupt salt), the
   * password is hashed again with the row's own salt and own iteration count (which
   * raises on a count PBKDF2 refuses) and compared with the stored hash.
   */
  function Verify(kdf: Kdf, t: Table, username: string, password: string): (r: Result<bool, VerifyError>)
    ensures username !in t.rows ==> r == Success(false)
    ensures username in t.rows && DecodeSalt(t.rows[username].salt).None? ==> r == Failure(CorruptSalt)
    ensures username in t.rows && DecodeSalt(t.rows[username].salt).Some? && t.rows[username].iterations < 1
            ==> r == Failure(InvalidIterations)
    ensures username in t.rows && DecodeSalt(t.rows[username].salt).Some? && t.rows[username].iterations > MAX_ITERATIONS
            ==> r == Failure(IterationsTooLarge)
    ensures r.Success? <==>
      || username !in t.rows
      || (DecodeSalt(t.rows[username].salt).Some? && 1 <= t.rows[username].iterations <= MAX_ITERATIONS)
    ensures r == Success(true) ==> username in t.rows
    ensures WrittenByStore(t) ==> r.Success?
  {
    if username !in t.rows then Success(false)
    else
      var row := t.rows[username];
      var salt := DecodeSalt(row.salt);
      if salt.None? then Failure(CorruptSalt)
      else if row.iterations < 1 then Failure(InvalidIterations)
      else if row.iterations > MAX_ITERATIONS then Failure(IterationsTooLarge)
      else Success(HashPassword(kdf, password, salt.value, row.iterations) == row.passwordHash)
  }

  /**
   * A password verifies right after it was stored, whatever work factor PBKDF2 accepted
   * for it: verification uses the row's iteration count, not the current default.
   */
  lemma VerifyAfterUpsert(kdf: Kdf, t: Table, username: string, password: string, salt: seq<Byte>, iterations: int, timestamp: string)
    requires 1 <= iterations <= MAX_ITERATIONS
    ensures Verify(kdf, Upsert(t, username, HashPassword(kdf, password, salt, iterations), EncodeSalt(salt), iterations, timestamp), username, password)
         == Success(true)
  {
    SaltRoundTrip(salt);
  }

  /** Writing one user's row leaves every other user's verification as it was. */
  lemma VerifyUnaffectedByOtherUpsert(kdf: Kdf, t: Table, username: string, password: string, other: string,
                                      passwordHash: string, salt: string, iterations: int, timestamp: string)
    requires other != username
    ensures Verify(kdf, Upsert(t, other, passwordHash, salt, iterations, timestamp), username, password)
         == Verify(kdf, t, username, password)
  {
  }

  function Summary(row: Row): UserSummary {
    UserSummary(row.id, row.username, row.createdAt, row.updatedAt)
  }

  predicate SortedByUsername(s: seq<UserSummary>) {
    forall i, j :: 0 <= i < j < |s| ==> Before(s[i].username, s[j].username)
  }

  /** listing holds exactly the summaries of the rows of the given usernames, sorted by username. */
  predicate ListsExactly(rows: map<string, Row>, names: set<string>, listing: seq<UserSummary>) {
    && names <= rows.Keys
    && SortedByUsername(listing)
    && |listing| == |names|
    && (forall i :: 0 <= i < |listing| ==> listing[i].username in names && listing[i] == Summary(rows[listing[i].username]))
    && (forall u :: u in names ==> Summary(rows[u]) in listing)
  }

  /** What SELECT id, username, created_at, updated_at FROM users ORDER BY username returns. */
  predicate IsListing(rows: map<string, Row>, listing: seq<UserSummary>) {
    ListsExactly(rows, rows.Keys, listing)
  }

  /** A summary that sorts before every entry of a sorted listing can head it. */
  lemma SortedCons(h: UserSummary, s: seq<UserSummary>)
    requires SortedByUsername(s)
    requires forall j :: 0 <= j < |s| ==> Before(h.username, s[j].username)
    ensures SortedByUsername([h] + s)
  {
  }

  /** Places x in a listing sorted by username that does not hold x's username yet. */
  function InsertByUsername(s: seq<UserSummary>, x: UserSummary): (r: seq<UserSummary>)
    requires SortedByUsername(s)
    requires forall i :: 0 <= i < |s| ==> s[i].username != x.username
    ensures SortedByUsername(r)
    ensures multiset(r) == multiset(s) + multiset{x}
    decreases |s|
  {
    if |s| == 0 then [x]
    else if Before(x.username, s[0].username) then
      BeforeHead(x, s);
      SortedCons(x, s);
      [x] + s
    else
      var rest := InsertByUsername(s[1..], x);
      BeforeTotal(x.username, s[0].username);
      HeadBeforeRest(s, x, rest);
      SortedCons(s[0], rest);
      assert s == [s[0]] + s[1..];
      [s[0]] + rest
  }

  /** What sorts before the head of a sorted listing sorts before all of it. */
  lemma BeforeHead(x: UserSummary, s: seq<UserSummary>)
    requires SortedByUsername(s) && |s| > 0
    requires Before(x.username, s[0].username)
    ensures forall j :: 0 <= j < |s| ==> Before(x.username, s[j].username)
  {
    forall j | 0 < j < |s| ensures Before(x.username, s[j].username) {
      BeforeTransitive(x.username, s[0].username, s[j].username);
    }
  }

  /** The head of a sorted listing sorts before every entry of its tail with x inserted. */
  lemma HeadBeforeRest(s: seq<UserSummary>, x: UserSummary, rest: seq<UserSummary>)
    requires SortedByUsername(s) && |s| > 0
    requires Before(s[0].username, x.username)
    requires multiset(rest) == multiset(s[1..]) + multiset{x}
    ensures forall j :: 0 <= j < |rest| ==> Before(s[0].username, rest[j].username)
  {
    forall j | 0 <= j < |rest| ensures Before(s[0].username, rest[j].username) {
      assert rest[j] in multiset(rest);
      if rest[j] != x {
        assert rest[j] in s[1..];
      }
    }
  }

  /** Inserting the summary of one more row keeps a listing exact. */
  lemma InsertKeepsListing(rows: map<string, Row>, names: set<string>, listing: seq<UserSummary>, u: string, more: set<string>)
    requires forall v :: v in rows ==> rows[v].username == v
    requires ListsExactly(rows, names, listing)
    requires u in rows && u !in names && more == names + {u}
    ensures ListsExactly(rows, more, InsertByUsername(listing, Summary(rows[u])))
  {
    var x := Summary(rows[u]);
    var r := InsertByUsername(listing, x);
    forall v | v in names + {u} ensures Summary(rows[v]) in r {
      assert Summary(rows[v]) in multiset(r);
    }
    forall i | 0 <= i < |r|
      ensures r[i].username in names + {u} && r[i] == Summary(rows[r[i].username])
    {
      assert r[i] in multiset(r);
      if r[i] != x {
        assert r[i] in listing;
      }
    }
  }

  /** One step of the listing loop: the row of u moves from pending to listed. */
  lemma ListingStep(rows: map<string, Row>, pending: set<string>, listing: seq<UserSummary>, u: string)
    requires forall v :: v in rows ==> rows[v].username == v
    requires pending <= rows.Keys && u in pending
    requires ListsExactly(rows, rows.Keys - pending, listing)
    ensures ListsExactly(rows, rows.Keys - (pending - {u}), InsertByUsername(listing, Summary(rows[u])))
  {
    assert rows.Keys - (pending - {u}) == (rows.Keys - pending) + {u};
    InsertKeepsListing(rows, rows.Keys - pending, listing, u, rows.Keys - (pending - {u}));
  }

  /** The ORDER BY username of list_users: every row is placed into a listing kept sorted. */
  method SortedListing(rows: map<string, Row>) returns (listing: seq<UserSummary>)
    requires forall u :: u in rows ==> rows[u].username == u
    ensures IsListing(rows, listing)
  {
    listing := [];
    var pending := rows.Keys;
    while pending != {}
      invariant pending <= rows.Keys
      invariant ListsExactly(rows, rows.Keys - pending, listing)
      decreases pending
    {
      var u :| u in pending;
      ListingStep(rows, pending, listing, u);
      listing := InsertByUsername(listing, Summary(rows[u]));
      pending := pending - {u};
    }
    assert rows.Keys - pending == rows.Keys;
  }

  /** One SQLite database file holding (or not yet holding) the users table. */
  class CredentialDatabase {
    /** The key derivation function the store hashes with. */
    const kdf: Kdf
    /** Whether CREATE TABLE users has run on this file. */
    var tableCreated: bool
    var table: Table

    ghost predicate Valid()
      reads this
    {
      && WellFormed(table)
      && WrittenByStore(table)
      && (!tableCreated ==> table == EmptyTable)
    }

    /** A database file that has no users table yet. */
    constructor (kdf: Kdf)
      ensures Valid()
      ensures this.kdf == kdf && !tableCreated && table == EmptyTable
    {
      this.kdf := kdf;
      tableCreated := false;
      table := EmptyTable;
    }

    /** CREATE TABLE IF NOT EXISTS: creates an empty table once and leaves an existing one as it is. */
    method InitializeDatabase()
      requires Valid()
      modifies this
      ensures Valid() && tableCreated
      ensures table == old(table)
    {
      if !tableCreated {
        table := EmptyTable;
        tableCreated := true;
      }
    }

    /**
     * create_user. The random salt and the clock reading (ISO 8601 to the second,
     * without zone) are parameters; the stored timestamps carry the suffix "Z".
     */
    method CreateUser(username: string, password: string, salt: seq<Byte>, utcNow: string)
      requires Valid()
      requires |salt| == SALT_BYTES
      modifies this
      ensures Valid() && tableCreated
      ensures table == Upsert(old(table), username, HashPassword(kdf, password, salt, PBKDF2_ITERATIONS),
                              EncodeSalt(salt), PBKDF2_ITERATIONS, utcNow + "Z")
      ensures Verify(kdf, table, username, password) == Success(true)
    {
      InitializeDatabase();
      var iterations := PBKDF2_ITERATIONS;
      var passwordHash := HashPassword(kdf, password, salt, iterations);
      var timestamp := utcNow + "Z";
      SaltRoundTrip(salt);
      VerifyAfterUpsert(kdf, table, username, password, salt, iterations, timestamp);
      table := Upsert(table, username, passwordHash, EncodeSalt(salt), iterations, timestamp);
    }

    /** verify_user: reads the table (creating it if missing) and never raises on rows this store wrote. */
    method VerifyUser(username: string, password: string) returns (r: Result<bool, VerifyError>)
      requires Valid()
      modifies this
      ensures Valid() && tableCreated
      ensures table == old(table)
      ensures r == Verify(kdf, table, username, password)
      ensures r.Success?
    {
      InitializeDatabase();
      r := Verify(kdf, table, username, password);
    }

    /** list_users: one non-secret summary per row, ordered by username. */
    method ListUsers() returns (listing: seq<UserSummary>)
      requires Valid()
      modifies this
      ensures Valid() && tableCreated
      ensures table == old(table)
      ensures IsListing(table.rows, listing)
    {
      InitializeDatabase();
      listing := SortedListing(table.rows);
    }
  }
}
