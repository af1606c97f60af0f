/**
 Sizes of the case store on disk: the JSON document that persistLocked bounds and the sealed
 envelope that load bounds (control/cases.go, control/storage_crypto.go).

 Sizes are those of ASCII text, one byte for each character; instants are in nanoseconds.
 */
module CaseBytes {
  import opened CaseRepair
  import opened DecimalText

  const MAX_BYTES: nat := 16_777_216 // 16 MiB

  // ------------------------------------------------------------------ the JSON

  /** Bytes of one character inside a JSON string, as Go's encoder escapes it. */
  function CharBytes(c: char): nat {
    if c in {'\"', '\\', '\n', '\r', '\t', '\U{8}', '\U{c}'} then 2
    else if c < ' ' || c in {'<', '>', '&'} then 6
    else 1
  }

  function InnerBytes(s: string): nat {
    if s == "" then 0 else InnerBytes(s[..|s| - 1]) + CharBytes(s[|s| - 1])
  }

  function TextBytes(s: string): nat {
    InnerBytes(s) + 2
  }

  /** The strings of a list, each with the comma or bracket after it. */
  function ItemsBytes(list: seq<string>): nat {
    if list == [] then 0 else ItemsBytes(list[..|list| - 1]) + TextBytes(list[|list| - 1]) + 1
  }

  /** A list without elements is a nil slice and prints as null. */
  function ListBytes(list: seq<string>): nat {
    if list == [] then |"null"| else |"["| + ItemsBytes(list)
  }

  /** Digits of a fraction of `width` digits once its trailing zeros are dropped. */
  function FractionDigits(fraction: nat, width: nat): nat {
    if width == 0 || fraction == 0 then 0
    else if fraction % 10 == 0 then FractionDigits(fraction / 10, width - 1)
    else width
  }

  /** A UTC time in quotes with as many fractional digits as it needs. */
  function TimeBytes(at: int): nat {
    var fraction := at % 1_000_000_000;
    |"\"0001-01-01T00:00:00Z\""| + if fraction == 0 then 0 else 1 + FractionDigits(fraction, 9)
  }

  function ObservationBytes(o: Observation): nat {
    |"{\"at\":"| + TimeBytes(o.at) + |",\"source\":"| + TextBytes(o.source) + |",\"message\":"| + TextBytes(o.message)
    + (if o.target == "" then 0 else |",\"target\":"| + TextBytes(o.target)) + |"}"|
  }

  function ObservationsBytes(os: seq<Observation>): nat {
    if os == [] then 0 else ObservationsBytes(os[..|os| - 1]) + ObservationBytes(os[|os| - 1]) + 1
  }

  function RecordBytes(c: SecurityCase): nat {
    |"{\"id\":"| + TextBytes(c.id) + |",\"fingerprint\":"| + TextBytes(c.fingerprint)
    + |",\"title\":"| + TextBytes(c.title)
    + |",\"status\":"| + TextBytes(c.status) + |",\"severity\":"| + TextBytes(c.severity)
    + |",\"confidence\":"| + TextBytes(c.confidence) + |",\"created_at\":"| + TimeBytes(c.created)
    + |",\"updated_at\":"| + TimeBytes(c.updated)
    + |",\"observations\":"| + (if c.observations == [] then |"null"| else |"["| + ObservationsBytes(c.observations))
    + |",\"evidence_ids\":"| + ListBytes(c.evidence) + |",\"rule_ids\":"| + ListBytes(c.rules)
    + |",\"categories\":"| + ListBytes(c.categories) + |",\"recommended_actions\":"| + ListBytes(c.recommended)
    + (if c.resolution == "" then 0 else |",\"resolution\":"| + TextBytes(c.resolution))
    + |",\"occurrence_count\":"| + |Decimal(c.count)| + |"}"|
  }

  /** The bytes of a record that do not depend on it, and the others. */
  lemma RecordParts(c: SecurityCase)
    ensures RecordBytes(c) ==
            196 + TextBytes(c.id) + TextBytes(c.fingerprint) + TextBytes(c.title) + TextBytes(c.status)
            + TextBytes(c.severity) + TextBytes(c.confidence) + TimeBytes(c.created) + TimeBytes(c.updated)
            + (if c.observations == [] then 4 else 1 + ObservationsBytes(c.observations))
            + ListBytes(c.evidence) + ListBytes(c.rules) + ListBytes(c.categories) + ListBytes(c.recommended)
            + (if c.resolution == "" then 0 else 14 + TextBytes(c.resolution)) + |Decimal(c.count)|
  {
    hide TextBytes, TimeBytes, ListBytes, ObservationsBytes, Decimal;
  }

  /** The records of a store, each with the comma or bracket after it. */
  ghost function RecordsBytes(m: map<string, SecurityCase>): nat {
    if m == map[] then 0 else var k :| k in m; RecordBytes(m[k]) + 1 + RecordsBytes(m - {k})
  }

  function HeaderBytes(revision: nat): nat {
    |"{\"schema\":\"vgt-gedefense-cases-v1\",\"revision\":"| + |Decimal(revision)| + |",\"cases\":["|
  }

  /** The document with these records; an empty one still closes its list. */
  function DocumentBytes(revision: nat, records: nat): nat {
    HeaderBytes(revision) + (if records == 0 then 1 else records) + |"}"|
  }

  ghost function PlainBytes(revision: nat, m: map<string, SecurityCase>): nat {
    DocumentBytes(revision, RecordsBytes(m))
  }

  lemma {:induction false} RecordsBytesSplit(m: map<string, SecurityCase>, k: string)
    requires k in m
    ensures RecordsBytes(m) == RecordBytes(m[k]) + 1 + RecordsBytes(m - {k})
    decreases |m|
  {
    hide RecordBytes;
    var x :| x in m && RecordsBytes(m) == RecordBytes(m[x]) + 1 + RecordsBytes(m - {x});
    if x != k {
      RecordsBytesSplit(m - {x}, k);
      RecordsBytesSplit(m - {k}, x);
      assert m - {x} - {k} == m - {k} - {x};
    }
  }

  /** Storing a case under a key changes the size by the difference of the two records. */
  lemma RecordsBytesUpdate(m: map<string, SecurityCase>, k: string, c: SecurityCase)
    ensures RecordsBytes(m[k := c])
            == RecordsBytes(m) + RecordBytes(c) + 1 - (if k in m then RecordBytes(m[k]) + 1 else 0)
  {
    hide RecordBytes;
    RecordsBytesSplit(m[k := c], k);
    assert m[k := c] - {k} == m - {k};
    if k in m {
      RecordsBytesSplit(m, k);
    } else {
      assert m - {k} == m;
    }
  }

  // --------------------------------------------------------------- the envelope

  /** Everything in the envelope but the ciphertext. */
  function EnvelopeBytes(revision: nat): nat {
    |"{\"schema\":\"vgt-gedefense-aes256gcm-v1\",\"cipher\":\"AES-256-GCM\""|
    + |",\"purpose\":\"security-cases\",\"sequence\":"|
    + |Decimal(revision)| + |",\"aad_sha256\":\""| + 64 + |"\",\"nonce\":\""| + 16 + |"\",\"ciphertext\":\""| + |"\"}"|
  }

  /** The sealed file: the text and its 16-byte tag in base64 without padding. */
  function SealedBytes(revision: nat, plain: nat): nat {
    EnvelopeBytes(revision) + (4 * (plain + 16) + 2) / 3
  }

  /** The longest text whose sealed file is still read back. */
  function ReadableMax(revision: nat): int {
    3 * (MAX_BYTES - EnvelopeBytes(revision)) / 4 - 16
  }

  lemma FixedParts(revision: nat)
    ensures HeaderBytes(revision) == 56 + |Decimal(revision)| && EnvelopeBytes(revision) == 224 + |Decimal(revision)|
  {
  }

  /** The bound on what is read is a bound on the text a quarter below the bound on what is written. */
  lemma SealedFitsExactlyWhen(revision: nat, plain: nat)
    ensures SealedBytes(revision, plain) <= MAX_BYTES <==> plain <= ReadableMax(revision)
    ensures ReadableMax(revision) < MAX_BYTES
  {
    hide EnvelopeBytes;
    var room: int := MAX_BYTES - EnvelopeBytes(revision);
    var sealed: nat := plain + 16;
    assert (4 * sealed + 2) / 3 <= room <==> 4 * sealed <= 3 * room;
    assert sealed <= 3 * room / 4 <==> 4 * sealed <= 3 * room;
  }
}
