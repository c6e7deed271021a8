/**
 * The asset codec: the textual identity of an asset ("native", or a
 * 56-character issuer, a colon and the asset code) and its structured form
 * (type, code, issuer).
 */
module Assets {
  import opened Wrappers

  /** The three asset types; the numbers the ledger stores are given by TypeCode. */
  datatype AssetType = Native | CreditAlphanum4 | CreditAlphanum12

  function TypeCode(t: AssetType): int {
    match t
    case Native => 0
    case CreditAlphanum4 => 1
    case CreditAlphanum12 => 2
  }

  /** The type names used at the query boundary. */
  function TypeName(t: AssetType): string {
    match t
    case Native => "native"
    case CreditAlphanum4 => "credit_alphanum4"
    case CreditAlphanum12 => "credit_alphanum12"
  }

  /** The structured form; code and issuer are absent (undefined) for the native asset. */
  datatype AssetTuple = AssetTuple(kind: AssetType, code: Option<string>, issuer: Option<string>)

  const NativeId: string := "native"
  const NativeTuple: AssetTuple := AssetTuple(Native, None, None)

  /** Issuer account ids are fixed-width. */
  const IssuerLength: nat := 56

  /** JavaScript's `s.slice(0, n)`: at most the first n characters. */
  function Take(s: string, n: nat): (r: string)
    ensures |r| == if |s| < n then |s| else n
    ensures r <= s
  {
    if |s| <= n then s else s[..n]
  }

  /** JavaScript's `s.slice(n)`: everything from index n on, empty when s is shorter. */
  function Drop(s: string, n: nat): (r: string)
    ensures |r| == if |s| < n then 0 else |s| - n
    ensures forall k :: 0 <= k < |r| ==> r[k] == s[n + k]
  {
    if |s| <= n then [] else s[n..]
  }

  /** The type a credit code implies: longer than four characters means the 12-character class. */
  function CreditTypeFor(code: string): (t: AssetType)
    ensures t != Native
    ensures t == CreditAlphanum12 <==> |code| > 4
  {
    if |code| > 4 then CreditAlphanum12 else CreditAlphanum4
  }

  /** assets.toTuple: the character at index 56 is skipped without being looked at. */
  function ToTuple(t: string): (r: AssetTuple)
    ensures t == NativeId ==> r == NativeTuple
    ensures t != NativeId ==> r.code.Some? && r.issuer.Some? && r.kind != Native
    ensures t != NativeId ==> (r.kind == CreditAlphanum12 <==> |r.code.value| > 4)
    ensures t != NativeId && |t| > IssuerLength ==>
              r.issuer.value == t[..IssuerLength] && r.code.value == t[IssuerLength + 1..]
    ensures t != NativeId && |t| <= IssuerLength ==> r.issuer.value == t && r.code.value == []
  {
    if t == NativeId then NativeTuple
    else
      var issuer := Take(t, IssuerLength);
      var code := Drop(t, IssuerLength + 1);
      AssetTuple(CreditTypeFor(code), Some(code), Some(issuer))
  }

  /** How a template literal renders a possibly undefined string. */
  function Render(s: Option<string>): string {
    s.GetOr("undefined")
  }

  /** assets.toString: any non-zero type renders as issuer:code. */
  function ToString(kind: int, code: Option<string>, issuer: Option<string>): (r: string)
    ensures kind == 0 <==> r == NativeId
    ensures kind != 0 ==> r == Render(issuer) + ":" + Render(code)
  {
    if kind != 0 then
      var r := Render(issuer) + ":" + Render(code);
      assert r[|Render(issuer)|] == ':' && ':' !in NativeId;
      r
    else NativeId
  }

  /** The identity of a structured asset. */
  function IdentityOf(a: AssetTuple): string {
    ToString(TypeCode(a.kind), a.code, a.issuer)
  }

  /** A (type, code, issuer) triple that the codec can represent: the issuer is
      56 characters long and the credit type agrees with the code length. */
  predicate WellFormedTuple(a: AssetTuple) {
    a.kind == Native ||
    (a.code.Some? && a.issuer.Some? && |a.issuer.value| == IssuerLength && a.kind == CreditTypeFor(a.code.value))
  }

  /** An identity the codec reads back exactly: "native", or a colon at index 56. */
  predicate WellFormedId(s: string) {
    s == NativeId || (|s| > IssuerLength && s[IssuerLength] == ':')
  }

  /** toString ignores code and issuer when the type is native. */
  lemma NativeIgnoresCodeAndIssuer(code1: Option<string>, issuer1: Option<string>,
                                   code2: Option<string>, issuer2: Option<string>)
    ensures ToString(0, code1, issuer1) == ToString(0, code2, issuer2) == NativeId
  {
  }

  /** Round trip: parsing the identity of a well-formed triple gives the triple back
      (for the native asset, the canonical native tuple). */
  lemma {:induction false} ParseIdentity(a: AssetTuple)
    requires WellFormedTuple(a)
    ensures ToTuple(IdentityOf(a)) == (if a.kind == Native then NativeTuple else a)
  {
    if a.kind != Native {
      var issuer, code := a.issuer.value, a.code.value;
      var s := IdentityOf(a);
      assert s == issuer + ":" + code;
      assert |s| > IssuerLength;
      assert s != NativeId;
      assert s[..IssuerLength] == issuer;
      assert s[IssuerLength + 1..] == code;
    }
  }

  /** Reverse round trip: rendering the parse of a well-formed identity gives the identity back. */
  lemma {:induction false} IdentityOfParse(s: string)
    requires WellFormedId(s)
    ensures IdentityOf(ToTuple(s)) == s
    ensures WellFormedTuple(ToTuple(s))
  {
    if s != NativeId {
      var r := ToTuple(s);
      assert r.issuer.value == s[..IssuerLength] && r.code.value == s[IssuerLength + 1..];
      assert s == s[..IssuerLength] + [s[IssuerLength]] + s[IssuerLength + 1..];
    }
  }

  /** The identity is injective on well-formed triples. */
  lemma IdentityInjective(a: AssetTuple, b: AssetTuple)
    requires WellFormedTuple(a) && WellFormedTuple(b)
    requires a.kind != Native && b.kind != Native
    requires IdentityOf(a) == IdentityOf(b)
    ensures a == b
  {
    ParseIdentity(a);
    ParseIdentity(b);
  }

  /** A record with string-valued fields, as built for the boundary. */
  type Record = map<string, string>

  /**
   * assets.stringToObject: a native asset sets only the type field (to the
   * identity itself, "native"); a credit asset sets type name, code and issuer,
   * in that order, under the caller's field names.
   */
  function StringToObject(asset: string, typeProp: string, codeProp: string, issuerProp: string): (r: Record)
    ensures asset == NativeId ==> r == map[typeProp := NativeId]
    ensures asset != NativeId ==> r.Keys == {typeProp, codeProp, issuerProp}
    ensures asset != NativeId ==> r[issuerProp] == ToTuple(asset).issuer.value
    ensures asset != NativeId && issuerProp != codeProp ==> r[codeProp] == ToTuple(asset).code.value
    ensures asset != NativeId && typeProp != codeProp && typeProp != issuerProp ==>
              r[typeProp] == TypeName(ToTuple(asset).kind)
  {
    var a := ToTuple(asset);
    if a.kind == Native then map[typeProp := asset]
    else map[typeProp := TypeName(a.kind)][codeProp := a.code.value][issuerProp := a.issuer.value]
  }

  /** The type named at the boundary. */
  function TypeNamed(name: string): Option<AssetType> {
    if name == "native" then Some(Native)
    else if name == "credit_alphanum4" then Some(CreditAlphanum4)
    else if name == "credit_alphanum12" then Some(CreditAlphanum12)
    else None
  }

  /** The record built for a well-formed credit identity, under three distinct field
      names, determines the identity again. */
  lemma {:induction false} RecordDeterminesIdentity(asset: string, typeProp: string, codeProp: string, issuerProp: string)
    requires WellFormedId(asset) && asset != NativeId
    requires typeProp != codeProp && typeProp != issuerProp && codeProp != issuerProp
    ensures var r := StringToObject(asset, typeProp, codeProp, issuerProp);
            TypeNamed(r[typeProp]).Some? &&
            ToString(TypeCode(TypeNamed(r[typeProp]).value), Some(r[codeProp]), Some(r[issuerProp])) == asset
  {
    var a := ToTuple(asset);
    IdentityOfParse(asset);
    assert TypeNamed(TypeName(a.kind)) == Some(a.kind);
  }
}
