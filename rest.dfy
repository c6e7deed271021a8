/**
 * The validation of a path request's query string.  The checks run in a fixed
 * order and the first that fails names the invalid field; an accepted request
 * names its destination asset by an identity string.  Parameters absent from
 * the query are `None`.  Number parsing and the public-key check are
 * parameters: `number` maps a string to the number it denotes (`None` for NaN)
 * and `isKey` is the Ed25519 public-key test.
 */
module Rest {
  import opened Wrappers
  import Assets

  /** The query parameters the validator reads. */
  datatype PathQuery = PathQuery(
    sourceAccount: Option<string>,
    destinationAmount: Option<string>,
    destinationAssetType: Option<string>,
    destinationAssetIssuer: Option<string>,
    destinationAssetCode: Option<string>)

  /** What the validator does: return normally, or throw a record naming the field. */
  datatype Outcome = Accepted | Rejected(invalidField: string, reason: string)

  /** A string parameter is truthy when it is present and not empty. */
  predicate Truthy(s: Option<string>) {
    s.Some? && s.value != []
  }

  /** validateAmount: present, a number, and at least zero. */
  predicate ValidateAmount(amount: Option<string>, number: string -> Option<real>) {
    Truthy(amount) && number(amount.value).Some? && number(amount.value).value >= 0.0
  }

  /** validateAddress: present and a valid public key. */
  predicate ValidateAddress(source: Option<string>, isKey: string -> bool) {
    Truthy(source) && isKey(source.value)
  }

  /** validateType: one of the three asset type names. */
  predicate ValidateType(kind: Option<string>): (ok: bool)
    ensures ok <==> exists t :: kind == Some(Assets.TypeName(t))
  {
    if Truthy(kind) && Assets.TypeNamed(kind.value).Some? then
      assert kind == Some(Assets.TypeName(Assets.TypeNamed(kind.value).value));
      true
    else
      assert forall t :: Assets.TypeNamed(Assets.TypeName(t)) == Some(t);
      false
  }

  /** validateCode: present, and at most four characters for credit_alphanum4. */
  predicate ValidateCode(code: Option<string>, kind: Option<string>) {
    Truthy(code) && (kind == Some("credit_alphanum4") ==> |code.value| <= 4)
  }

  /** The checked fields, in the order they are checked, and the reason each failure gives. */
  const Fields: seq<string> :=
    ["destination_amount", "source_account", "destination_asset_type", "destination_asset_issuer", "destination_asset_code"]
  const Reasons: seq<string> :=
    ["Value must be positive", "invalid address",
     "invalid asset type: was not one of 'native', 'credit_alphanum4', 'credit_alphanum12'",
     "invalid address", "code too long"]

  /** Whether the query satisfies the requirement on field number i; issuer and code
      are not required of a native destination. */
  predicate Passes(q: PathQuery, i: nat, number: string -> Option<real>, isKey: string -> bool) {
    if i == 0 then ValidateAmount(q.destinationAmount, number)
    else if i == 1 then ValidateAddress(q.sourceAccount, isKey)
    else if i == 2 then ValidateType(q.destinationAssetType)
    else if i == 3 then q.destinationAssetType == Some("native") || ValidateAddress(q.destinationAssetIssuer, isKey)
    else q.destinationAssetType == Some("native") || ValidateCode(q.destinationAssetCode, q.destinationAssetType)
  }

  /** validateQuery: accepted exactly when every requirement holds; otherwise the
      reported field is the first one, in check order, whose requirement fails. */
  function ValidateQuery(q: PathQuery, number: string -> Option<real>, isKey: string -> bool): (r: Outcome)
    ensures r.Accepted? <==> forall i :: 0 <= i < |Fields| ==> Passes(q, i, number, isKey)
    ensures r.Rejected? ==>
              exists i :: 0 <= i < |Fields| && r == Rejected(Fields[i], Reasons[i]) &&
                          !Passes(q, i, number, isKey) && forall j :: 0 <= j < i ==> Passes(q, j, number, isKey)
  {
    if !ValidateAmount(q.destinationAmount, number) then
      assert !Passes(q, 0, number, isKey);
      Rejected("destination_amount", "Value must be positive")
    else if !ValidateAddress(q.sourceAccount, isKey) then
      assert Passes(q, 0, number, isKey) && !Passes(q, 1, number, isKey);
      Rejected("source_account", "invalid address")
    else if !ValidateType(q.destinationAssetType) then
      assert !Passes(q, 2, number, isKey);
      assert forall j :: 0 <= j < 2 ==> Passes(q, j, number, isKey);
      Rejected("destination_asset_type", Reasons[2])
    else if q.destinationAssetType == Some("native") then
      assert forall j :: 0 <= j < |Fields| ==> Passes(q, j, number, isKey);
      Accepted
    else if !ValidateAddress(q.destinationAssetIssuer, isKey) then
      assert !Passes(q, 3, number, isKey);
      assert forall j :: 0 <= j < 3 ==> Passes(q, j, number, isKey);
      Rejected("destination_asset_issuer", "invalid address")
    else if !ValidateCode(q.destinationAssetCode, q.destinationAssetType) then
      assert !Passes(q, 4, number, isKey);
      assert forall j :: 0 <= j < 4 ==> Passes(q, j, number, isKey);
      Rejected("destination_asset_code", "code too long")
    else
      assert forall j :: 0 <= j < |Fields| ==> Passes(q, j, number, isKey);
      Accepted
  }

  /** A zero amount is accepted by the amount check, although the reason given on
      failure says the value must be positive. */
  lemma ZeroAmountAccepted(q: PathQuery, number: string -> Option<real>, isKey: string -> bool)
    requires q.destinationAmount == Some("0") && number("0") == Some(0.0)
    ensures ValidateQuery(q, number, isKey) != Rejected("destination_amount", "Value must be positive")
  {
  }

  /** A native destination is judged without looking at issuer or code. */
  lemma NativeIgnoresIssuerAndCode(q: PathQuery, issuer: Option<string>, code: Option<string>,
                                   number: string -> Option<real>, isKey: string -> bool)
    requires q.destinationAssetType == Some("native")
    ensures ValidateQuery(q, number, isKey) ==
            ValidateQuery(q.(destinationAssetIssuer := issuer, destinationAssetCode := code), number, isKey)
  {
  }

  /** The destination identity of an accepted query: "native", or issuer:code. */
  function DestinationAsset(q: PathQuery, number: string -> Option<real>, isKey: string -> bool): (dest: string)
    requires ValidateQuery(q, number, isKey).Accepted?
    ensures var kind := Assets.TypeNamed(q.destinationAssetType.value).value;
            dest == Assets.ToString(Assets.TypeCode(kind), q.destinationAssetCode, q.destinationAssetIssuer)
  {
    if q.destinationAssetType.value == "native" then "native"
    else q.destinationAssetIssuer.value + ":" + q.destinationAssetCode.value
  }

  /**
   * The destination of an accepted credit query reads back as its issuer and
   * code when the key is 56 characters long; the type read back follows the
   * code length, so a credit_alphanum12 request with a short code reads back as
   * credit_alphanum4.
   */
  lemma DestinationReparses(q: PathQuery, number: string -> Option<real>, isKey: string -> bool)
    requires ValidateQuery(q, number, isKey).Accepted?
    requires q.destinationAssetType != Some("native")
    requires |q.destinationAssetIssuer.value| == Assets.IssuerLength
    ensures var t := Assets.ToTuple(DestinationAsset(q, number, isKey));
            && t.issuer == q.destinationAssetIssuer
            && t.code == q.destinationAssetCode
            && t.kind == Assets.CreditTypeFor(q.destinationAssetCode.value)
            && (q.destinationAssetType == Some("credit_alphanum4") ==> t.kind == Assets.CreditAlphanum4)
  {
    var issuer, code := q.destinationAssetIssuer.value, q.destinationAssetCode.value;
    var dest := DestinationAsset(q, number, isKey);
    assert dest == issuer + ":" + code;
    assert dest[..Assets.IssuerLength] == issuer;
    assert dest[Assets.IssuerLength + 1..] == code;
  }
}
