/**
 The text protocol spoken with the privileged core (control/coreipc.go): the quarantine
 identity token, the check of a returned identity, and the authenticated field list.

 HMAC is ideal: two tags are equal exactly when key and message are.
 */
module CoreIpc {
  import opened Options
  import opened SeparatedText
  import opened DecimalText

  const UINT32: nat := 0x1_0000_0000
  const UINT64: nat := 0x1_0000_0000_0000_0000
  const MAX_SIZE: nat := 268435456 // 256 MiB
  const MAX_MODE: nat := 4095 // 0o7777

  datatype Identity = Identity(size: nat, mode: nat, uid: nat, gid: nat, device: nat, inode: nat, modified: int,
                               digest: string)

  /** The values the source's field types can hold. */
  predicate Typed(x: Identity) {
    && x.size < UINT64 && x.mode < UINT32 && x.uid < UINT32 && x.gid < UINT32 && x.device < UINT64 && x.inode < UINT64
    && -0x8000_0000_0000_0000 <= x.modified < 0x8000_0000_0000_0000
  }

  predicate HexDigit(c: char) {
    IsDigit(c) || 'a' <= c <= 'f' || 'A' <= c <= 'F'
  }

  predicate ValidIdentity(x: Identity) {
    && x.size <= MAX_SIZE && x.mode <= MAX_MODE
    && |x.digest| == 64 && forall i :: 0 <= i < 64 ==> HexDigit(x.digest[i])
  }

  function TokenFields(x: Identity): seq<string> {
    ["v1", Decimal(x.size), Decimal(x.mode), Decimal(x.uid), Decimal(x.gid), Decimal(x.device), Decimal(x.inode),
     SignedDecimal(x.modified), x.digest]
  }

  /** protocolToken */
  function Token(x: Identity): Option<string> {
    if ValidIdentity(x) then Some(Join(':', TokenFields(x))) else None
  }

  function FromFields(f: seq<string>): Option<Identity> {
    if |f| != 9 || f[0] != "v1" then None
    else
      var size, mode, uid, gid :=
          ParseUint(f[1], UINT64), ParseUint(f[2], UINT32), ParseUint(f[3], UINT32), ParseUint(f[4], UINT32);
      var device, inode, modified := ParseUint(f[5], UINT64), ParseUint(f[6], UINT64), ParseInt64(f[7]);
      if size.None? || mode.None? || uid.None? || gid.None? || device.None? || inode.None? || modified.None? then None
      else
        var x := Identity(size.value, mode.value, uid.value, gid.value,
                          device.value, inode.value, modified.value, f[8]);
        if ValidIdentity(x) then Some(x) else None
  }

  /** parseQuarantineIdentity */
  function Parse(value: string): Option<Identity> {
    FromFields(Split(':', value))
  }

  /** verifyQuarantineIdentityResponse */
  predicate ResponseMatches(value: string, expected: Identity) {
    var actual := Parse(value);
    if actual.None? then false
    else
      var wanted, got := Token(expected), Token(actual.value);
      wanted.Some? && got.Some? && got.value == wanted.value
  }

  // --------------------------------------------------------------- round trip

  lemma DigitsHoldNoColon(n: nat)
    ensures Free(':', Decimal(n))
  {
    forall i | 0 <= i < |Decimal(n)|
      ensures Decimal(n)[i] != ':'
    {
      assert IsDigit(Decimal(n)[i]);
    }
  }

  lemma FieldsHoldNoColon(x: Identity)
    requires ValidIdentity(x)
    ensures AllFree(':', TokenFields(x))
  {
    hide Decimal;
    DigitsHoldNoColon(x.size);
    DigitsHoldNoColon(x.mode);
    DigitsHoldNoColon(x.uid);
    DigitsHoldNoColon(x.gid);
    DigitsHoldNoColon(x.device);
    DigitsHoldNoColon(x.inode);
    DigitsHoldNoColon(if x.modified < 0 then -x.modified else x.modified);
  }

  lemma FieldsReadBack(x: Identity)
    requires ValidIdentity(x) && Typed(x)
    ensures FromFields(TokenFields(x)) == Some(x)
  {
    hide Decimal, SignedDecimal, ParseUint, ParseInt64, ValidIdentity;
    ReadsBack(x.size, UINT64);
    ReadsBack(x.mode, UINT32);
    ReadsBack(x.uid, UINT32);
    ReadsBack(x.gid, UINT32);
    ReadsBack(x.device, UINT64);
    ReadsBack(x.inode, UINT64);
    ReadsBackSigned(x.modified);
  }

  /** The text of a token: the version and the fields in this order, with colons between them. */
  lemma TokenText(x: Identity)
    requires ValidIdentity(x)
    ensures var times := SignedDecimal(x.modified) + ":" + x.digest;
            var file := Decimal(x.device) + ":" + (Decimal(x.inode) + ":" + times);
            var owner := Decimal(x.uid) + ":" + (Decimal(x.gid) + ":" + file);
            Token(x) == Some("v1" + ":" + (Decimal(x.size) + ":" + (Decimal(x.mode) + ":" + owner)))
  {
    hide Decimal, SignedDecimal, ValidIdentity;
    var f := TokenFields(x);
    assert f[0..] == f && f[8..] == [x.digest];
    JoinFrom(f, 0);
    JoinFrom(f, 1);
    JoinFrom(f, 2);
    JoinFrom(f, 3);
    JoinFrom(f, 4);
    JoinFrom(f, 5);
    JoinFrom(f, 6);
    JoinFrom(f, 7);
  }

  lemma JoinFrom(fields: seq<string>, k: nat)
    requires k + 1 < |fields|
    ensures Join(':', fields[k..]) == fields[k] + ":" + Join(':', fields[k + 1..])
  {
    assert fields[k..][1..] == fields[k + 1..];
  }

  /** Printing any valid identity and parsing it returns the identity, negative timestamps included. */
  lemma TokenRoundTrip(x: Identity)
    requires ValidIdentity(x) && Typed(x)
    ensures Parse(Token(x).value) == Some(x)
  {
    hide FromFields, TokenFields, ValidIdentity;
    FieldsHoldNoColon(x);
    FieldsReadBack(x);
    assert TokenFields(x) != [] by { NineFields(x); }
    SplitUndoesJoin(':', TokenFields(x));
  }

  lemma NineFields(x: Identity)
    ensures |TokenFields(x)| == 9
  {
  }

  lemma TokenIsInjective(x: Identity, y: Identity)
    requires ValidIdentity(x) && Typed(x) && ValidIdentity(y) && Typed(y)
    ensures Token(x) == Token(y) <==> x == y
  {
    hide Parse, ValidIdentity, Typed;
    TokenRoundTrip(x);
    TokenRoundTrip(y);
  }

  lemma ParsedIsSound(value: string)
    ensures Parse(value).Some? ==> ValidIdentity(Parse(value).value) && Typed(Parse(value).value)
  {
  }

  /** The response check accepts exactly the texts that parse to the expected identity. */
  lemma ResponseCheckComparesIdentities(value: string, expected: Identity)
    requires Typed(expected)
    ensures ResponseMatches(value, expected) <==> Parse(value) == Some(expected)
  {
    hide Parse, ValidIdentity, Typed;
    ParsedIsSound(value);
    if Parse(value).Some? && Token(expected).Some? {
      TokenIsInjective(Parse(value).value, expected);
    }
  }

  // ------------------------------------------------------------ canonical text

  /** Every number of the text is written as %d writes it. */
  predicate PlainFields(f: seq<string>)
    requires |f| == 9
  {
    (forall i :: 1 <= i < 7 ==> Plain(f[i])) && PlainSigned(f[7])
  }

  lemma UnsignedFieldPrintsBack(s: string, bound: nat)
    requires ParseUint(s, bound).Some?
    ensures Decimal(ParseUint(s, bound).value) == s <==> Plain(s)
  {
    PrintsBackExactlyWhenPlain(s);
  }

  lemma FieldsPrintBackExactlyWhenPlain(f: seq<string>)
    requires FromFields(f).Some?
    ensures TokenFields(FromFields(f).value) == f <==> PlainFields(f)
  {
    hide Decimal, SignedDecimal, ParseUint, ParseInt64, ValidIdentity, Plain, PlainSigned;
    UnsignedFieldPrintsBack(f[1], UINT64);
    UnsignedFieldPrintsBack(f[2], UINT32);
    UnsignedFieldPrintsBack(f[3], UINT32);
    UnsignedFieldPrintsBack(f[4], UINT32);
    UnsignedFieldPrintsBack(f[5], UINT64);
    UnsignedFieldPrintsBack(f[6], UINT64);
    SignedPrintsBackExactlyWhenPlain(f[7]);
    var t := TokenFields(FromFields(f).value);
    assert t[1] == f[1] <==> Plain(f[1]);
    assert t[2] == f[2] <==> Plain(f[2]);
    assert t[3] == f[3] <==> Plain(f[3]);
    assert t[4] == f[4] <==> Plain(f[4]);
    assert t[5] == f[5] <==> Plain(f[5]);
    assert t[6] == f[6] <==> Plain(f[6]);
    assert t[7] == f[7] <==> PlainSigned(f[7]);
  }

  /**
   The parser is wider than the printer: a parsed text is the token of its identity exactly when no
   number carries a leading zero, a plus sign or a negative zero.
   */
  lemma ParsedTextIsTheTokenExactlyWhenPlain(value: string)
    requires Parse(value).Some?
    ensures Token(Parse(value).value) == Some(value) <==> PlainFields(Split(':', value))
  {
    hide FromFields, TokenFields, PlainFields;
    var f := Split(':', value);
    var x := Parse(value).value;
    ParsedIsSound(value);
    assert |f| == 9 by { NineParsed(f); }
    FieldsPrintBackExactlyWhenPlain(f);
    JoinUndoesSplit(':', value);
    NineFields(x);
    FieldsHoldNoColon(x);
    SplitUndoesJoin(':', TokenFields(x));
  }

  const ZEROS := seq(64, _ => '0')

  /** A size written "00" parses, and prints back as another text. */
  lemma LeadingZeroParses() returns (value: string)
    ensures Parse(value).Some? && Split(':', value)[1] == "00" && Token(Parse(value).value) != Some(value)
  {
    hide Decimal;
    var f := ["v1", "00", "0", "0", "0", "0", "0", "0", ZEROS];
    value := Join(':', f);
    assert AllFree(':', f);
    SplitUndoesJoin(':', f);
    ZeroTexts();
    ParsedTextIsTheTokenExactlyWhenPlain(value);
    assert !Plain(f[1]);
  }

  lemma ZeroTexts()
    ensures ParseUint("00", UINT64) == Some(0) && ParseUint("0", UINT64) == Some(0) && ParseUint("0", UINT32) == Some(0)
    ensures ParseInt64("0") == Some(0)
  {
    assert "00"[..1] == "0" && "0"[..0] == "";
    assert Value("0") == 0;
  }

  lemma NineParsed(f: seq<string>)
    requires FromFields(f).Some?
    ensures |f| == 9
  {
  }

  // -------------------------------------------------------- authenticated lists

  const UNIT_SEPARATOR := '\U{1f}'

  datatype Mac = Mac(key: string, message: string)

  predicate ProtocolFieldValid(v: string) {
    && 0 < |v| <= 3072
    && forall i :: 0 <= i < |v| ==> v[i] !in [' ', '\t', '\r', '\n', '\0', UNIT_SEPARATOR]
  }

  lemma {:induction false} JoinExtends(sep: char, fields: seq<string>, last: string)
    requires fields != []
    ensures Join(sep, fields + [last]) == Join(sep, fields) + [sep] + last
  {
    if |fields| > 1 {
      JoinExtends(sep, fields[1..], last);
      assert (fields + [last])[1..] == fields[1..] + [last];
    } else {
      assert (fields + [last])[1..] == [last];
    }
  }

  /** coreMAC: the fields are written one after the other with a separator between them. */
  method CoreMac(key: string, fields: seq<string>) returns (mac: Mac)
    ensures mac == Mac(key, Join(UNIT_SEPARATOR, fields))
  {
    var message := "";
    for i := 0 to |fields|
      invariant message == Join(UNIT_SEPARATOR, fields[..i])
    {
      if i > 0 {
        message := message + [UNIT_SEPARATOR];
        JoinExtends(UNIT_SEPARATOR, fields[..i], fields[i]);
      }
      assert fields[..i + 1] == fields[..i] + [fields[i]];
      message := message + fields[i];
    }
    assert fields[..|fields|] == fields;
    mac := Mac(key, message);
  }

  lemma ValidFieldsAreFree(fields: seq<string>)
    requires forall i :: 0 <= i < |fields| ==> ProtocolFieldValid(fields[i])
    ensures AllFree(UNIT_SEPARATOR, fields)
  {
    forall i, j | 0 <= i < |fields| && 0 <= j < |fields[i]|
      ensures fields[i][j] != UNIT_SEPARATOR
    {
      assert ProtocolFieldValid(fields[i]);
    }
  }

  /** Valid field lists carry the same tag exactly when they are the same list: no field can spill into the next. */
  lemma MacIdentifiesTheFields(key: string, a: seq<string>, b: seq<string>)
    requires a != [] && b != []
    requires forall i :: 0 <= i < |a| ==> ProtocolFieldValid(a[i])
    requires forall i :: 0 <= i < |b| ==> ProtocolFieldValid(b[i])
    ensures Mac(key, Join(UNIT_SEPARATOR, a)) == Mac(key, Join(UNIT_SEPARATOR, b)) <==> a == b
  {
    ValidFieldsAreFree(a);
    ValidFieldsAreFree(b);
    SplitUndoesJoin(UNIT_SEPARATOR, a);
    SplitUndoesJoin(UNIT_SEPARATOR, b);
  }
}
