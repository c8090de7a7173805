/** The batch conversion of cpi-converter.ts: one pack file is fetched and
    parsed, then every customer in turn gets an encrypted file locked to the
    model named in their instrument-info file, or an error entry. Storage
    download and upload, DES, 3DES and the random bytes of the locked block
    are the collaborators, passed in as functions. */
module CpiConverter {
  import opened Wrappers
  import opened Bytes
  import opened PpfParser
  import opened N27Parser
  import opened CpiEncryptor

  /** `CustomerForCPI`; `null` is `None`. */
  datatype Customer = Customer(id: int, customerId: Option<string>, infoFileUrl: Option<string>)

  /** `CPIResult`. The model name is the bytes of the parsed name. */
  datatype CpiResult = CpiResult(customerId: int, cpiUrl: string, modelName: seq<byte>)

  /** `CPIError`. */
  datatype CpiError = CpiError(customerId: int, error: string)

  /** `ConversionResult`. */
  datatype ConversionResult = ConversionResult(successful: seq<CpiResult>, failed: seq<CpiError>)

  /** The collaborators: `downloadFile`, `uploadFileWithPath` (both may fail
      with a message), the DES and 3DES block encryptions, and the 16 random
      bytes drawn for the customer at each position of the list. */
  datatype Env = Env(
    download: string -> Result<seq<byte>>,
    upload: (seq<byte>, string) -> Result<string>,
    des: BlockCipher,
    tdes: BlockCipher,
    entropy: nat -> seq<byte>)

  ghost predicate EntropyOk(env: Env)
  {
    forall k: nat :: |env.entropy(k)| == 16
  }

  const NO_INFO_FILE: string := "ללקוח אין קובץ אינפו (.n27) מועלה"
  const NO_MODEL_NAME: string := "לא ניתן לחלץ שם דגם מקובץ .n27"
  const UNKNOWN_N27: string := "unknown.n27"

  /** The install id every converted pack gets. */
  const PACK_INSTALL_ID := 1

  // ---- Names and paths ----

  /** The characters `[a-zA-Z0-9._-]` a version label keeps. */
  predicate SafeChar(ch: char)
  {
    || ('a' <= ch <= 'z') || ('A' <= ch <= 'Z') || ('0' <= ch <= '9')
    || ch == '.' || ch == '_' || ch == '-'
  }

  /** The number of UTF-16 code units of `ch`: two for a character outside
      the Basic Multilingual Plane, which a JavaScript string holds as a
      surrogate pair. */
  function Utf16Units(ch: char): nat
  {
    if ch as int >= 0x1_0000 then 2 else 1
  }

  /** The length of `v` as a JavaScript string: its UTF-16 code units. */
  function Utf16Length(v: string): nat
  {
    if v == [] then 0 else Utf16Units(v[0]) + Utf16Length(v[1..])
  }

  /** What the replacement makes of one character. The pattern has no `u`
      flag, so it matches code units: a character outside the Basic
      Multilingual Plane is two unsafe units and becomes `__`. */
  function SanitiseChar(ch: char): string
  {
    if SafeChar(ch) then [ch] else if Utf16Units(ch) == 2 then "__" else "_"
  }

  /** `versionNumber.replace(/[^a-zA-Z0-9._-]/g, '_')`: every code unit
      outside the class becomes `_`, so the result is as long as the label in
      code units and holds only safe characters. */
  function SafeVersion(v: string): (r: string)
    ensures |r| == Utf16Length(v)
    ensures forall i :: 0 <= i < |r| ==> SafeChar(r[i])
  {
    if v == [] then [] else SanitiseChar(v[0]) + SafeVersion(v[1..])
  }

  /** Sanitising works character by character on a concatenation. */
  lemma {:induction false} SafeVersionAppend(a: string, b: string)
    ensures SafeVersion(a + b) == SafeVersion(a) + SafeVersion(b)
    ensures Utf16Length(a + b) == Utf16Length(a) + Utf16Length(b)
    decreases |a|
  {
    if a == [] {
      assert a + b == b;
    } else {
      assert (a + b)[1..] == a[1..] + b;
      SafeVersionAppend(a[1..], b);
    }
  }

  /** A label of safe characters is left as it is. */
  lemma {:induction false} SafeVersionKeepsSafe(v: string)
    requires forall i :: 0 <= i < |v| ==> SafeChar(v[i])
    ensures SafeVersion(v) == v
    decreases |v|
  {
    if v != [] {
      SafeVersionKeepsSafe(v[1..]);
    }
  }

  /** Within the Basic Multilingual Plane a label keeps its length, safe
      characters stay where they were and every other one becomes `_`. */
  lemma {:induction false} SafeVersionBmp(v: string)
    requires forall i :: 0 <= i < |v| ==> v[i] as int < 0x1_0000
    ensures |SafeVersion(v)| == |v|
    ensures forall i :: 0 <= i < |v| ==> SafeVersion(v)[i] == if SafeChar(v[i]) then v[i] else '_'
    decreases |v|
  {
    if v != [] {
      SafeVersionBmp(v[1..]);
      assert SafeVersion(v) == SanitiseChar(v[0]) + SafeVersion(v[1..]);
    }
  }

  /** Every character of the sanitised label is safe; sanitising twice
      changes nothing more, and a safe label is unchanged. */
  lemma SafeVersionProps(v: string)
    ensures forall i :: 0 <= i < |SafeVersion(v)| ==> SafeChar(SafeVersion(v)[i])
    ensures SafeVersion(SafeVersion(v)) == SafeVersion(v)
    ensures (forall i :: 0 <= i < |v| ==> SafeChar(v[i])) ==> SafeVersion(v) == v
  {
    SafeVersionKeepsSafe(SafeVersion(v));
    if forall i :: 0 <= i < |v| ==> SafeChar(v[i]) {
      SafeVersionKeepsSafe(v);
    }
  }

  /** A character outside the Basic Multilingual Plane yields two `_`, one
      for each half of its surrogate pair. */
  lemma SafeVersionAstral()
    ensures SafeVersion("V5\U{1F600}") == "V5__"
  {
    assert SafeVersion("\U{1F600}") == "__" + SafeVersion([]);
    assert SafeVersion("5\U{1F600}") == "5" + SafeVersion("\U{1F600}");
    assert SafeVersion("V5\U{1F600}") == "V" + SafeVersion("5\U{1F600}");
  }

  /** The decimal digits of `n`, as `String(n)` writes them. */
  function NatToString(n: nat): (r: string)
    ensures |r| >= 1 && forall i :: 0 <= i < |r| ==> '0' <= r[i] <= '9'
    decreases n
  {
    var d := [(n % 10) as char + '0'];
    if n < 10 then d else NatToString(n / 10) + d
  }

  /** The number a string of decimal digits denotes. */
  function DecimalValue(s: string): nat
    requires forall i :: 0 <= i < |s| ==> '0' <= s[i] <= '9'
  {
    if s == [] then 0
    else DecimalValue(s[..|s| - 1]) * 10 + (s[|s| - 1] as int - '0' as int)
  }

  /** `NatToString` writes the decimal form of `n`: its digits denote `n`,
      and only `0` itself starts with the digit `0`. */
  lemma {:induction false} NatToStringValue(n: nat)
    ensures DecimalValue(NatToString(n)) == n
    ensures NatToString(n)[0] == '0' ==> n == 0
    decreases n
  {
    var r := NatToString(n);
    if n >= 10 {
      NatToStringValue(n / 10);
      assert r[..|r| - 1] == NatToString(n / 10);
    }
  }

  /** `String(id)`. */
  function IntToString(n: int): string
  {
    if n < 0 then "-" + NatToString(-n) else NatToString(n)
  }

  /** `customer.customerId || String(customer.id)`: `null` and `''` both fall back. */
  function FileIdentifier(c: Customer): string
  {
    if c.customerId.Some? && c.customerId.value != "" then c.customerId.value else IntToString(c.id)
  }

  /** `` `${fileIdentifier}_${safeVersion}.cpi` ``. */
  function CpiFileName(c: Customer, versionNumber: string): string
  {
    FileIdentifier(c) + "_" + SafeVersion(versionNumber) + ".cpi"
  }

  /** `` `updates/${updateVersionId}/cpi/${cpiFileName}` ``. */
  function BlobPath(updateVersionId: string, cpiFileName: string): string
  {
    "updates/" + updateVersionId + "/cpi/" + cpiFileName
  }

  /** `url.split('/').pop()`: what follows the last `/`, or all of it. */
  function LastSegment(url: string): (r: string)
    ensures '/' !in r
    ensures |r| <= |url| && r == url[|url| - |r|..]
    ensures |r| < |url| ==> url[|url| - |r| - 1] == '/'
  {
    if |url| == 0 then ""
    else if url[|url| - 1] == '/' then ""
    else
      var rest := LastSegment(url[..|url| - 1]);
      SuffixSnoc(url, |rest|);
      rest + [url[|url| - 1]]
  }

  /** A suffix of all but the last character, with the last one appended. */
  lemma SuffixSnoc(url: string, k: nat)
    requires k < |url|
    ensures url[..|url| - 1][|url| - 1 - k..] + [url[|url| - 1]] == url[|url| - 1 - k..]
  {
  }

  /** `url.split('/').pop() || 'unknown.n27'`. */
  function N27FileName(url: string): string
  {
    var s := LastSegment(url);
    if s == "" then UNKNOWN_N27 else s
  }

  /** The file name shown for an info file never holds a `/` and is never empty. */
  lemma N27FileNameProps(url: string)
    ensures '/' !in N27FileName(url) && N27FileName(url) != ""
    ensures '/' !in url && url != "" ==> N27FileName(url) == url
  {
    if '/' !in url && url != "" {
      LastSegmentWithoutSlash(url);
    }
  }

  lemma {:induction false} LastSegmentWithoutSlash(url: string)
    requires '/' !in url
    ensures LastSegment(url) == url
  {
    if |url| > 0 {
      assert '/' !in url[..|url| - 1];
      LastSegmentWithoutSlash(url[..|url| - 1]);
      assert url == url[..|url| - 1] + [url[|url| - 1]];
    }
  }

  /** The name of the file and its path: the identifier and the sanitised
      label, in the update's `cpi` folder. */
  lemma CpiFileNameShape(c: Customer, versionNumber: string, updateVersionId: string)
    ensures var name := CpiFileName(c, versionNumber);
      && |name| == |FileIdentifier(c)| + 1 + Utf16Length(versionNumber) + 4
      && name[..|FileIdentifier(c)|] == FileIdentifier(c)
      && name[|name| - 4..] == ".cpi"
      && BlobPath(updateVersionId, name)[..8] == "updates/"
      && BlobPath(updateVersionId, name)[|BlobPath(updateVersionId, name)| - |name|..] == name
    ensures FileIdentifier(c) == if c.customerId.Some? && c.customerId.value != "" then c.customerId.value
                                 else IntToString(c.id)
  {
    var name := CpiFileName(c, versionNumber);
    assert name[..|FileIdentifier(c)|] == FileIdentifier(c);
    var path := BlobPath(updateVersionId, name);
    assert path[..8] == "updates/";
  }

  // ---- One customer ----

  /** The `fullId` handed to the encryptor: `instrumentInfo.fullId || undefined`. */
  function LockId(info: InstrumentInfo): Option<seq<byte>>
  {
    if info.fullId != [] then Some(info.fullId) else None
  }

  /** The entry the body of the loop records for the customer at position
      `k`: a result, or the message of the step that failed. */
  function Outcome(env: Env, ppfData: PpfData, versionNumber: string, updateVersionId: string,
                   c: Customer, k: nat): Result<CpiResult>
    requires EntropyOk(env)
  {
    if c.infoFileUrl.None? || c.infoFileUrl.value == "" then Failure(NO_INFO_FILE)
    else
      var url := c.infoFileUrl.value;
      match env.download(url)
      case Failure(e) => Failure(e)
      case Success(n27Buffer) =>
        var info := N27Info(n27Buffer, N27FileName(url));
        if info.name == [] then Failure(NO_MODEL_NAME)
        else
          var cpiData := EncryptedCpi(env.des, env.tdes, ppfData, info.name, PACK_INSTALL_ID, None,
                                      LockId(info), env.entropy(k));
          var blobPath := BlobPath(updateVersionId, CpiFileName(c, versionNumber));
          match env.upload(cpiData, blobPath)
          case Failure(e) => Failure(e)
          case Success(cpiUrl) => Success(CpiResult(c.id, cpiUrl, info.name))
  }

  /** The body of the loop for one customer, step by step as the source takes them. */
  method ConvertCustomer(env: Env, ppfData: PpfData, versionNumber: string, updateVersionId: string,
                         c: Customer, k: nat) returns (r: Result<CpiResult>)
    requires EntropyOk(env)
    ensures r == Outcome(env, ppfData, versionNumber, updateVersionId, c, k)
  {
    if c.infoFileUrl.None? || c.infoFileUrl.value == "" {
      return Failure(NO_INFO_FILE);
    }
    var url := c.infoFileUrl.value;
    var n27Buffer := env.download(url);
    if n27Buffer.Failure? {
      return Failure(n27Buffer.error);
    }
    var n27FileName := N27FileName(url);
    var instrumentInfo := ParseN27(n27Buffer.value, n27FileName);
    if instrumentInfo.name == [] {
      return Failure(NO_MODEL_NAME);
    }
    var cpiData := BuildEncryptedCpi(env.des, env.tdes, ppfData, instrumentInfo.name, PACK_INSTALL_ID, None,
                                     LockId(instrumentInfo), env.entropy(k));
    var fileIdentifier := FileIdentifier(c);
    var safeVersion := SafeVersion(versionNumber);
    var cpiFileName := fileIdentifier + "_" + safeVersion + ".cpi";
    var blobPath := "updates/" + updateVersionId + "/cpi/" + cpiFileName;
    assert blobPath == BlobPath(updateVersionId, CpiFileName(c, versionNumber));
    var cpiUrl := env.upload(cpiData, blobPath);
    match cpiUrl
    case Failure(e) =>
      r := Failure(e);
    case Success(u) =>
      r := Success(CpiResult(c.id, u, instrumentInfo.name));
  }

  // ---- The batch ----

  /** The two lists after the customers `cs` with outcomes `outs`: a
      result is appended to `successful`, a failure becomes an error entry
      with the customer's id in `failed`. */
  function Collect(cs: seq<Customer>, outs: seq<Result<CpiResult>>): ConversionResult
    requires |cs| == |outs|
    decreases |cs|
  {
    if cs == [] then ConversionResult([], [])
    else
      var k := |cs| - 1;
      var before := Collect(cs[..k], outs[..k]);
      match outs[k]
      case Success(res) => before.(successful := before.successful + [res])
      case Failure(e) => before.(failed := before.failed + [CpiError(cs[k].id, e)])
  }

  /** One more customer: its outcome goes to the end of one of the lists. */
  lemma CollectStep(cs: seq<Customer>, outs: seq<Result<CpiResult>>, i: nat)
    requires |cs| == |outs| && i < |cs|
    ensures var before := Collect(cs[..i], outs[..i]);
      Collect(cs[..i + 1], outs[..i + 1])
        == match outs[i]
           case Success(res) => before.(successful := before.successful + [res])
           case Failure(e) => before.(failed := before.failed + [CpiError(cs[i].id, e)])
  {
    TakeTake(cs, i, i + 1);
    TakeTake(outs, i, i + 1);
  }

  /** The outcome of every customer, each at its position. */
  function Outcomes(env: Env, ppfData: PpfData, versionNumber: string, updateVersionId: string,
                    cs: seq<Customer>): (r: seq<Result<CpiResult>>)
    requires EntropyOk(env)
    ensures |r| == |cs|
  {
    seq(|cs|, i requires 0 <= i < |cs| => Outcome(env, ppfData, versionNumber, updateVersionId, cs[i], i))
  }

  /** `generateCPIsForCustomers`: the pack file is fetched and parsed once;
      if the fetch fails the whole call fails. */
  function Conversion(env: Env, ppfFileUrl: string, versionNumber: string, customers: seq<Customer>,
                      updateVersionId: string): Result<ConversionResult>
    requires EntropyOk(env)
  {
    match env.download(ppfFileUrl)
    case Failure(e) => Failure(e)
    case Success(ppfBuffer) =>
      var ppfData := ParsePpf(ppfBuffer);
      Success(Collect(customers, Outcomes(env, ppfData, versionNumber, updateVersionId, customers)))
  }

  /** `generateCPIsForCustomers`: fetch and parse the pack, then one pass
      over the customers, appending to `successful` or `failed`. */
  method GenerateCpisForCustomers(env: Env, ppfFileUrl: string, versionNumber: string, customers: seq<Customer>,
                                  updateVersionId: string) returns (r: Result<ConversionResult>)
    requires EntropyOk(env)
    ensures r == Conversion(env, ppfFileUrl, versionNumber, customers, updateVersionId)
  {
    var ppfBuffer := env.download(ppfFileUrl);
    if ppfBuffer.Failure? {
      return Failure(ppfBuffer.error);
    }
    var ppfData := ParsePPFRaw(ppfBuffer.value);
    ghost var outs := Outcomes(env, ppfData, versionNumber, updateVersionId, customers);
    var successful: seq<CpiResult> := [];
    var failed: seq<CpiError> := [];
    for i := 0 to |customers|
      invariant ConversionResult(successful, failed) == Collect(customers[..i], outs[..i])
    {
      var customer := customers[i];
      var outcome := ConvertCustomer(env, ppfData, versionNumber, updateVersionId, customer, i);
      assert outcome == outs[i];
      CollectStep(customers, outs, i);
      if outcome.Success? {
        successful := successful + [outcome.value];
      } else {
        failed := failed + [CpiError(customer.id, outcome.error)];
      }
    }
    TakeAll(customers);
    TakeAll(outs);
    r := Success(ConversionResult(successful, failed));
  }

  // ---- What the batch promises ----

  /** The ids of the customers whose outcome succeeded (`ok`) or failed
      (`!ok`), in list order. */
  function IdsWhere(cs: seq<Customer>, outs: seq<Result<CpiResult>>, ok: bool): seq<int>
    requires |cs| == |outs|
    decreases |cs|
  {
    if cs == [] then []
    else
      var k := |cs| - 1;
      var before := IdsWhere(cs[..k], outs[..k], ok);
      if outs[k].Success? == ok then before + [cs[k].id] else before
  }

  function SuccessIds(rs: seq<CpiResult>): seq<int>
  {
    seq(|rs|, i requires 0 <= i < |rs| => rs[i].customerId)
  }

  function FailureIds(es: seq<CpiError>): seq<int>
  {
    seq(|es|, i requires 0 <= i < |es| => es[i].customerId)
  }

  /** Each result names the customer it was made for. */
  ghost predicate ResultsMatch(cs: seq<Customer>, outs: seq<Result<CpiResult>>)
    requires |cs| == |outs|
  {
    forall k :: 0 <= k < |cs| && outs[k].Success? ==> outs[k].value.customerId == cs[k].id
  }

  /** Every customer lands in exactly one of the two lists, so their lengths
      add up to the number of customers; each list holds its customers in
      the order of the input. */
  lemma {:induction false} CollectPartition(cs: seq<Customer>, outs: seq<Result<CpiResult>>)
    requires |cs| == |outs| && ResultsMatch(cs, outs)
    ensures var b := Collect(cs, outs);
      && |b.successful| + |b.failed| == |cs|
      && SuccessIds(b.successful) == IdsWhere(cs, outs, true)
      && FailureIds(b.failed) == IdsWhere(cs, outs, false)
    decreases |cs|
  {
    if cs != [] {
      var k := |cs| - 1;
      assert ResultsMatch(cs[..k], outs[..k]);
      CollectPartition(cs[..k], outs[..k]);
      var before := Collect(cs[..k], outs[..k]);
      match outs[k]
      case Success(res) =>
        assert SuccessIds(before.successful + [res]) == SuccessIds(before.successful) + [res.customerId];
      case Failure(e) =>
        assert FailureIds(before.failed + [CpiError(cs[k].id, e)]) == FailureIds(before.failed) + [cs[k].id];
    }
  }

  /** Each customer's entry is in its list: the result itself, or an error
      with its id and the failing step's message. */
  lemma {:induction false} CollectHasEveryCustomer(cs: seq<Customer>, outs: seq<Result<CpiResult>>, i: nat)
    requires |cs| == |outs| && i < |cs|
    ensures var b := Collect(cs, outs);
      && (outs[i].Success? ==> outs[i].value in b.successful)
      && (outs[i].Failure? ==> CpiError(cs[i].id, outs[i].error) in b.failed)
    decreases |cs|
  {
    var k := |cs| - 1;
    if i < k {
      CollectHasEveryCustomer(cs[..k], outs[..k], i);
      assert cs[..k][i] == cs[i] && outs[..k][i] == outs[i];
    }
  }

  /** A result carries the id of its customer and the model name parsed
      from that customer's info file, which is never empty. */
  lemma OutcomeId(env: Env, ppfData: PpfData, versionNumber: string, updateVersionId: string, c: Customer, k: nat)
    requires EntropyOk(env)
    ensures var o := Outcome(env, ppfData, versionNumber, updateVersionId, c, k);
      o.Success? ==> o.value.customerId == c.id && o.value.modelName != []
  {
  }

  /** For the whole batch: the lists partition the customers in input order,
      and every customer's outcome is recorded. */
  lemma BatchPartition(env: Env, ppfData: PpfData, versionNumber: string, updateVersionId: string,
                       cs: seq<Customer>)
    requires EntropyOk(env)
    ensures var outs := Outcomes(env, ppfData, versionNumber, updateVersionId, cs);
      var b := Collect(cs, outs);
      && |b.successful| + |b.failed| == |cs|
      && SuccessIds(b.successful) == IdsWhere(cs, outs, true)
      && FailureIds(b.failed) == IdsWhere(cs, outs, false)
  {
    var outs := Outcomes(env, ppfData, versionNumber, updateVersionId, cs);
    forall k | 0 <= k < |cs| && outs[k].Success?
      ensures outs[k].value.customerId == cs[k].id
    {
      OutcomeId(env, ppfData, versionNumber, updateVersionId, cs[k], k);
    }
    CollectPartition(cs, outs);
  }

  /** A customer without an info file fails with the missing-file message,
      whatever the storage would have returned: nothing is fetched for it. */
  lemma NoInfoFile(env: Env, env2: Env, ppfData: PpfData, versionNumber: string, updateVersionId: string,
                   c: Customer, k: nat)
    requires EntropyOk(env) && EntropyOk(env2)
    requires c.infoFileUrl.None? || c.infoFileUrl.value == ""
    ensures Outcome(env, ppfData, versionNumber, updateVersionId, c, k) == Failure(NO_INFO_FILE)
    ensures Outcome(env, ppfData, versionNumber, updateVersionId, c, k)
         == Outcome(env2, ppfData, versionNumber, updateVersionId, c, k)
  {
  }

  /** An info file without a model name gives the no-name failure, whatever
      the upload would have done: nothing is built or stored for it. */
  lemma NoModelName(env: Env, upload2: (seq<byte>, string) -> Result<string>, ppfData: PpfData,
                    versionNumber: string, updateVersionId: string, c: Customer, k: nat)
    requires EntropyOk(env)
    requires c.infoFileUrl.Some? && c.infoFileUrl.value != ""
    requires env.download(c.infoFileUrl.value).Success?
    requires N27Info(env.download(c.infoFileUrl.value).value, "").name == []
    ensures Outcome(env, ppfData, versionNumber, updateVersionId, c, k) == Failure(NO_MODEL_NAME)
    ensures Outcome(env, ppfData, versionNumber, updateVersionId, c, k)
         == Outcome(env.(upload := upload2), ppfData, versionNumber, updateVersionId, c, k)
  {
  }

  /** On success the stored bytes are the encrypted file for the parsed model
      name with install id 1, every blob, and the parsed `fullId` as device
      lock exactly when it is not empty; they go to the customer's path, and
      the result records the storage's URL. */
  lemma SuccessUploads(env: Env, ppfData: PpfData, versionNumber: string, updateVersionId: string,
                       c: Customer, k: nat)
    requires EntropyOk(env)
    requires Outcome(env, ppfData, versionNumber, updateVersionId, c, k).Success?
    ensures c.infoFileUrl.Some? && env.download(c.infoFileUrl.value).Success?
    ensures var info := N27Info(env.download(c.infoFileUrl.value).value, N27FileName(c.infoFileUrl.value));
      var res := Outcome(env, ppfData, versionNumber, updateVersionId, c, k).value;
      var lock := LockId(info);
      var cpiData := EncryptedCpi(env.des, env.tdes, ppfData, info.name, 1, None, lock, env.entropy(k));
      && res.modelName == info.name != []
      && (lock.Some? <==> info.fullId != []) && (lock.Some? ==> lock.value == info.fullId)
      && env.upload(cpiData, BlobPath(updateVersionId, CpiFileName(c, versionNumber))) == Success(res.cpiUrl)
  {
  }

  /** A failed fetch of the pack file fails the whole call with its message;
      otherwise every customer is accounted for. */
  lemma ConversionOutcome(env: Env, ppfFileUrl: string, versionNumber: string, customers: seq<Customer>,
                          updateVersionId: string)
    requires EntropyOk(env)
    ensures env.download(ppfFileUrl).Failure? ==>
      Conversion(env, ppfFileUrl, versionNumber, customers, updateVersionId) == Failure(env.download(ppfFileUrl).error)
    ensures env.download(ppfFileUrl).Success? ==>
      var r := Conversion(env, ppfFileUrl, versionNumber, customers, updateVersionId);
      r.Success? && |r.value.successful| + |r.value.failed| == |customers|
  {
    if env.download(ppfFileUrl).Success? {
      BatchPartition(env, ParsePpf(env.download(ppfFileUrl).value), versionNumber, updateVersionId, customers);
    }
  }
}
