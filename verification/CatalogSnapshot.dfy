/** Snapshots: capturing, checking and reading back a fingerprinted catalog (catalog.rs). */
module CatalogSnapshot {
  import opened Catalog
  import opened CatalogCanon
  import opened Ordering
  import opened Utf8
  import opened Wrappers
  import Strings

  /** What SHA-256 returns; the hash itself is a parameter. */
  type Digest = d: seq<byte> | |d| == 32 witness seq(32, _ => 0)

  type Hash = seq<byte> -> Digest

  datatype Snapshot = Snapshot(
    schemaVersion: nat, connectionId: string, engine: DatabaseEngine, database: string, capturedAt: string,
    fingerprint: string, contents: Contents)

  datatype CatalogError = SchemaVersion(actual: nat, expected: nat) | Fingerprint | FingerprintMismatch | EmptyDatabase

  const HEX := "0123456789abcdef"

  function HexPair(b: byte): string { [HEX[b / 16], HEX[b % 16]] }

  function Hex(bytes: seq<byte>): (r: string)
    ensures |r| == 2 * |bytes|
  {
    if bytes == [] then [] else HexPair(bytes[0]) + Hex(bytes[1..])
  }

  lemma {:induction false} HexAppends(bytes: seq<byte>, b: byte)
    ensures Hex(bytes + [b]) == Hex(bytes) + HexPair(b)
  {
    hide HexPair;
    if bytes == [] {
      assert [b][1..] == [];
      assert [] + [b] == [b];
    } else {
      assert (bytes + [b])[1..] == bytes[1..] + [b];
      HexAppends(bytes[1..], b);
    }
  }

  method LowerHex(bytes: seq<byte>) returns (output: string)
    ensures output == Hex(bytes)
  {
    output := [];
    var i := 0;
    while i < |bytes|
      invariant i <= |bytes| && output == Hex(bytes[..i])
    {
      HexAppends(bytes[..i], bytes[i]);
      assert bytes[..i + 1] == bytes[..i] + [bytes[i]];
      output := output + [HEX[bytes[i] / 16]];
      output := output + [HEX[bytes[i] % 16]];
      i := i + 1;
    }
    assert bytes[..i] == bytes;
  }

  predicate FingerprintChar(c: char) { '0' <= c <= '9' || 'a' <= c <= 'f' }

  /** `valid_fingerprint`: 64 bytes, all lower-case hexadecimal. */
  predicate ValidFingerprint(s: string)
  {
    |Encode(s)| == 64 && forall i | 0 <= i < |Encode(s)| :: Encode(s)[i] < 128 && FingerprintChar(Encode(s)[i] as char)
  }

  lemma HexPairInjective(a: byte, b: byte)
    requires HexPair(a) == HexPair(b)
    ensures a == b
  {
    assert HexPair(a)[0] == HexPair(b)[0] && HexPair(a)[1] == HexPair(b)[1];
    HexDigitsApart(a / 16, b / 16);
    HexDigitsApart(a % 16, b % 16);
  }

  lemma HexDigitsApart(m: nat, n: nat)
    requires m < 16 && n < 16 && HEX[m] == HEX[n]
    ensures m == n
  {
  }

  /** Hexadecimal text determines the bytes. */
  lemma {:induction false} HexInjective(a: seq<byte>, b: seq<byte>)
    requires Hex(a) == Hex(b)
    ensures a == b
  {
    assert 2 * |a| == |Hex(a)| == |Hex(b)| == 2 * |b|;
    if a != [] {
      assert Hex(a)[..2] == HexPair(a[0]) && Hex(b)[..2] == HexPair(b[0]);
      assert Hex(a)[2..] == Hex(a[1..]) && Hex(b)[2..] == Hex(b[1..]);
      HexPairInjective(a[0], b[0]);
      HexInjective(a[1..], b[1..]);
      Rejoin(a, b);
    }
  }

  lemma {:induction false} AsciiEncodes(s: string)
    requires forall i | 0 <= i < |s| :: FingerprintChar(s[i])
    ensures |Encode(s)| == |s| && forall i | 0 <= i < |s| :: Encode(s)[i] == s[i] as int
  {
    if s != [] {
      AsciiEncodes(s[1..]);
      assert EncodeChar(s[0]) == [s[0] as int];
    }
  }

  lemma {:induction false} HexChars(bytes: seq<byte>)
    ensures forall i | 0 <= i < |Hex(bytes)| :: FingerprintChar(Hex(bytes)[i])
  {
    if bytes != [] {
      HexChars(bytes[1..]);
      HexPairChars(bytes[0]);
    }
  }

  lemma HexPairChars(b: byte)
    ensures FingerprintChar(HexPair(b)[0]) && FingerprintChar(HexPair(b)[1])
  {
    HexDigitChar(b / 16);
    HexDigitChar(b % 16);
  }

  lemma HexDigitChar(n: nat)
    requires n < 16
    ensures FingerprintChar(HEX[n])
  {
  }

  /** The hex of every digest passes the fingerprint check. */
  lemma DigestIsFingerprint(d: Digest)
    ensures ValidFingerprint(Hex(d))
  {
    HexChars(d);
    AsciiEncodes(Hex(d));
  }

  function CatalogFingerprint(h: Hash, engine: DatabaseEngine, c: Contents): string
  {
    Hex(h(Encode(FingerprintText(engine, c))))
  }

  function CanonicalFingerprint(h: Hash, s: Snapshot): string
  {
    CatalogFingerprint(h, s.engine, Canonical(s.contents))
  }

  predicate HasCanonicalFingerprint(h: Hash, s: Snapshot)
  {
    s.fingerprint == CanonicalFingerprint(h, s)
  }

  /** What every snapshot satisfies: its contents are canonical and its fingerprint is theirs. */
  predicate Genuine(h: Hash, s: Snapshot)
  {
    Canonical(s.contents) == s.contents && HasCanonicalFingerprint(h, s)
  }

  function ValidateShape(s: Snapshot): Result<(), CatalogError>
  {
    if s.schemaVersion != CATALOG_SCHEMA_VERSION then Err(SchemaVersion(s.schemaVersion, CATALOG_SCHEMA_VERSION))
    else if Strings.Trim(s.database) == [] then Err(EmptyDatabase)
    else if !ValidFingerprint(s.fingerprint) then Err(Fingerprint)
    else Ok(())
  }

  function Validate(h: Hash, s: Snapshot): Result<(), CatalogError>
  {
    var shape := ValidateShape(s);
    if shape.Err? then shape
    else if !HasCanonicalFingerprint(h, s) then Err(FingerprintMismatch)
    else Ok(())
  }

  function Capture(h: Hash, connectionId: string, engine: DatabaseEngine, database: string, capturedAt: string,
                   contents: Contents): Result<Snapshot, CatalogError>
  {
    var canonical := Canonical(contents);
    var s := Snapshot(CATALOG_SCHEMA_VERSION, connectionId, engine, database, capturedAt,
                      CatalogFingerprint(h, engine, canonical), canonical);
    var shape := ValidateShape(s);
    if shape.Err? then Err(shape.error) else Ok(s)
  }

  function New(h: Hash, connectionId: string, engine: DatabaseEngine, database: string, capturedAt: string,
               fingerprint: string, contents: Contents): Result<Snapshot, CatalogError>
  {
    var s := Snapshot(CATALOG_SCHEMA_VERSION, connectionId, engine, database, capturedAt, fingerprint,
                      Canonical(contents));
    var valid := Validate(h, s);
    if valid.Err? then Err(valid.error) else Ok(s)
  }

  /** Reading a snapshot: the wire record has the same fields, in any order and with any fingerprint. */
  function FromWire(h: Hash, wire: Snapshot): Result<Snapshot, CatalogError>
  {
    if wire.schemaVersion != CATALOG_SCHEMA_VERSION then
      Err(SchemaVersion(wire.schemaVersion, CATALOG_SCHEMA_VERSION))
    else
      New(h, wire.connectionId, wire.engine, wire.database, wire.capturedAt, wire.fingerprint, wire.contents)
  }

  // ---- What snapshots guarantee ----

  lemma FingerprintIsValid(h: Hash, engine: DatabaseEngine, c: Contents)
    ensures ValidFingerprint(CatalogFingerprint(h, engine, c))
  {
    DigestIsFingerprint(h(Encode(FingerprintText(engine, c))));
  }

  /** Capturing fails only on a blank database name, and always yields a valid canonical snapshot. */
  lemma CaptureIsValid(h: Hash, connectionId: string, engine: DatabaseEngine, database: string, capturedAt: string,
                       contents: Contents)
    ensures var r := Capture(h, connectionId, engine, database, capturedAt, contents);
            if Strings.Trim(database) == [] then r == Err(EmptyDatabase)
            else
              && r.Ok? && Validate(h, r.value).Ok? && Genuine(h, r.value)
              && r.value.connectionId == connectionId && r.value.engine == engine && r.value.database == database
              && r.value.capturedAt == capturedAt && r.value.schemaVersion == 2
  {
    hide Canonical, CatalogFingerprint, ValidFingerprint;
    CanonicalIdempotent(contents);
    FingerprintIsValid(h, engine, Canonical(contents));
  }

  /** A captured snapshot holds the schema it was captured from. */
  lemma CaptureKeepsSchema(h: Hash, connectionId: string, engine: DatabaseEngine, database: string,
                           capturedAt: string, contents: Contents)
    ensures var r := Capture(h, connectionId, engine, database, capturedAt, contents);
            r.Ok? ==> SameSchema(contents, r.value.contents)
  {
    hide Canonical, CatalogFingerprint, FingerprintText, SameSchema, ValidFingerprint;
    CanonicalIdempotent(contents);
    TextIdentifiesSchema(engine, contents, engine, Canonical(contents));
  }

  /** A given fingerprint is accepted exactly when it is the one the contents have. */
  lemma NewChecksFingerprint(h: Hash, connectionId: string, engine: DatabaseEngine, database: string,
                             capturedAt: string, fingerprint: string, contents: Contents)
    ensures var r := New(h, connectionId, engine, database, capturedAt, fingerprint, contents);
            && (r.Ok? <==> Strings.Trim(database) != []
                           && fingerprint == CatalogFingerprint(h, engine, Canonical(contents)))
            && (r.Ok? ==> HasCanonicalFingerprint(h, r.value)
                          && r == Capture(h, connectionId, engine, database, capturedAt, contents))
            && (r.Err? ==> r.error == (if Strings.Trim(database) == [] then EmptyDatabase
                                       else if !ValidFingerprint(fingerprint) then Fingerprint
                                       else FingerprintMismatch))
  {
    hide Canonical, CatalogFingerprint, ValidFingerprint;
    CanonicalIdempotent(contents);
    FingerprintIsValid(h, engine, Canonical(contents));
  }

  /** What is read from the wire, and exactly when: the canonical form of a record with its own fingerprint. */
  lemma ReadSnapshotsAreCanonical(h: Hash, wire: Snapshot)
    ensures var r := FromWire(h, wire);
            && (wire.schemaVersion != 2 ==> r == Err(SchemaVersion(wire.schemaVersion, 2)))
            && (r.Ok? <==> wire.schemaVersion == 2 && Strings.Trim(wire.database) != []
                           && wire.fingerprint == CatalogFingerprint(h, wire.engine, Canonical(wire.contents)))
            && (r.Ok? ==> r.value == wire.(contents := Canonical(wire.contents)) && Genuine(h, r.value)
                          && FromWire(h, r.value) == r)
  {
    hide Canonical, CatalogFingerprint, ValidFingerprint;
    if wire.schemaVersion == 2 {
      NewChecksFingerprint(h, wire.connectionId, wire.engine, wire.database, wire.capturedAt, wire.fingerprint,
                           wire.contents);
      CanonicalIdempotent(wire.contents);
    }
  }

  /** A captured snapshot is read back unchanged, even when its entries travel in another order. */
  lemma CaptureSurvivesWire(h: Hash, connectionId: string, engine: DatabaseEngine, database: string,
                            capturedAt: string, contents: Contents)
    ensures var r := Capture(h, connectionId, engine, database, capturedAt, contents);
            r.Ok? ==> FromWire(h, r.value) == r && FromWire(h, r.value.(contents := contents)) == r
  {
    hide Canonical, CatalogFingerprint, ValidFingerprint;
    CanonicalIdempotent(contents);
    FingerprintIsValid(h, engine, Canonical(contents));
  }

  lemma ReorderingKeepsFingerprint(h: Hash, engine: DatabaseEngine, c: Contents, d: Contents)
    requires SameSchema(c, d)
    ensures CatalogFingerprint(h, engine, Canonical(c)) == CatalogFingerprint(h, engine, Canonical(d))
  {
    ReorderingKeepsText(engine, c, d);
  }

  /** Reordered entries and new row estimates do not invalidate a snapshot's fingerprint. */
  lemma ReorderedSnapshotIsAccepted(h: Hash, s: Snapshot, contents: Contents)
    requires Validate(h, s).Ok? && SameSchema(s.contents, contents)
    ensures FromWire(h, s.(contents := contents)) == Ok(s.(contents := Canonical(contents)))
  {
    hide Canonical, CatalogFingerprint, ValidFingerprint;
    ReorderingKeepsFingerprint(h, s.engine, s.contents, contents);
    CanonicalIdempotent(contents);
  }

  /**
   * Two captures have one fingerprint exactly when they hold the same schema of the same engine,
   * provided the hash does not collide on the two texts at hand.
   */
  lemma FingerprintIdentifiesSchema(h: Hash, e1: DatabaseEngine, c1: Contents, e2: DatabaseEngine, c2: Contents)
    requires var t1, t2 := Encode(FingerprintText(e1, Canonical(c1))), Encode(FingerprintText(e2, Canonical(c2)));
             h(t1) == h(t2) ==> t1 == t2
    ensures CatalogFingerprint(h, e1, Canonical(c1)) == CatalogFingerprint(h, e2, Canonical(c2))
            <==> e1 == e2 && SameSchema(c1, c2)
  {
    var t1, t2 := FingerprintText(e1, Canonical(c1)), FingerprintText(e2, Canonical(c2));
    if CatalogFingerprint(h, e1, Canonical(c1)) == CatalogFingerprint(h, e2, Canonical(c2)) {
      HexInjective(h(Encode(t1)), h(Encode(t2)));
      EncodeInjective(t1, t2);
    }
    TextIdentifiesSchema(e1, c1, e2, c2);
  }
}
