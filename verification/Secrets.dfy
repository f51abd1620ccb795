/** secrets/values.go and vault.go: sealing and opening the secret fields of a set of values. */
module Secrets {
  import opened Wrappers
  import opened Text

  const PREFIX := "sealed:"
  const NONCE_LENGTH := 24

  datatype Value = Nil | Str(s: string) | Other(what: string)

  type Values = map<string, Value>

  datatype Field = Field(name: string, secret: bool)

  /** secretbox under the vault's key, and base64; both stay abstract. */
  datatype Crypto = Crypto(box: (string, string) -> string, unbox: (string, string) -> Option<string>,
                           encode: string -> string, decode: string -> Option<string>)

  /** What was boxed or encoded comes back. */
  ghost predicate Inverse(c: Crypto) {
    && (forall n, p :: c.unbox(n, c.box(n, p)) == Some(p))
    && (forall x :: c.decode(c.encode(x)) == Some(x))
  }

  /** Decoding and unboxing never lengthen their input. */
  ghost predicate Shrinks(c: Crypto) {
    && (forall n, x :: c.unbox(n, x).Some? ==> |c.unbox(n, x).value| <= |x|)
    && (forall x :: c.decode(x).Some? ==> |c.decode(x).value| <= |x|)
  }

  predicate IsSealed(s: string) { HasPrefix(s, PREFIX) }

  /* ---------- The vault ---------- */

  function Sealed(c: Crypto, nonce: string, plain: string): string {
    PREFIX + c.encode(nonce + c.box(nonce, plain))
  }

  /** Vault.Open; a missing vault opens only what is not sealed. */
  function Open(vault: Option<Crypto>, s: string): Result<string> {
    if !IsSealed(s) then Ok(s)
    else if vault.None? then Err
    else match vault.value.decode(s[|PREFIX|..])
      case None => Err
      case Some(raw) =>
        if |raw| < NONCE_LENGTH then Err
        else match vault.value.unbox(raw[..NONCE_LENGTH], raw[NONCE_LENGTH..])
          case None => Err
          case Some(out) => Ok(out)
  }

  /** Opening undoes sealing. */
  lemma OpenOfSealed(c: Crypto, nonce: string, plain: string)
    requires Inverse(c) && |nonce| == NONCE_LENGTH
    ensures IsSealed(Sealed(c, nonce, plain)) && Open(Some(c), Sealed(c, nonce, plain)) == Ok(plain)
  {
    var box := c.box(nonce, plain);
    assert Sealed(c, nonce, plain)[|PREFIX|..] == c.encode(nonce + box);
    assert (nonce + box)[..NONCE_LENGTH] == nonce && (nonce + box)[NONCE_LENGTH..] == box;
  }

  /* ---------- The loops over the schema ---------- */

  /** A non-empty string. */
  predicate HasText(v: Values, name: string) { name in v && v[name].Str? && v[name].s != "" }

  /** One field of SealValues. The random source gives a nonce or fails. */
  function SealField(vault: Option<Crypto>, f: Field, v: Values, nonce: Option<string>): Result<Values> {
    if !f.secret || !HasText(v, f.name) || IsSealed(v[f.name].s) then Ok(v)
    else if vault.None? || nonce.None? then Err
    else Ok(v[f.name := Str(Sealed(vault.value, nonce.value, v[f.name].s))])
  }

  function OpenField(vault: Option<Crypto>, f: Field, v: Values): Result<Values> {
    if !f.secret || !HasText(v, f.name) then Ok(v)
    else match Open(vault, v[f.name].s)
      case Ok(plain) => Ok(v[f.name := Str(plain)])
      case Err => Err
  }

  function SealTo(vault: Option<Crypto>, fields: seq<Field>, v: Values, nonces: nat -> Option<string>, n: nat): Result<Values>
    requires n <= |fields|
  {
    if n == 0 then Ok(v)
    else match SealTo(vault, fields, v, nonces, n - 1)
      case Ok(w) => SealField(vault, fields[n - 1], w, nonces(n - 1))
      case Err => Err
  }

  function OpenTo(vault: Option<Crypto>, fields: seq<Field>, v: Values, n: nat): Result<Values>
    requires n <= |fields|
  {
    if n == 0 then Ok(v)
    else match OpenTo(vault, fields, v, n - 1)
      case Ok(w) => OpenField(vault, fields[n - 1], w)
      case Err => Err
  }

  lemma {:induction false} SealErrStays(vault: Option<Crypto>, fields: seq<Field>, v: Values, nonces: nat -> Option<string>, m: nat, n: nat)
    requires m <= n <= |fields| && SealTo(vault, fields, v, nonces, m).Err?
    ensures SealTo(vault, fields, v, nonces, n).Err?
  {
    if m < n {
      SealErrStays(vault, fields, v, nonces, m, n - 1);
    }
  }

  lemma {:induction false} OpenErrStays(vault: Option<Crypto>, fields: seq<Field>, v: Values, m: nat, n: nat)
    requires m <= n <= |fields| && OpenTo(vault, fields, v, m).Err?
    ensures OpenTo(vault, fields, v, n).Err?
  {
    if m < n {
      OpenErrStays(vault, fields, v, m, n - 1);
    }
  }

  method SealValues(vault: Option<Crypto>, fields: seq<Field>, v: Values, nonces: nat -> Option<string>)
    returns (r: Result<Values>)
    ensures r == SealTo(vault, fields, v, nonces, |fields|)
  {
    var out := v;
    for i := 0 to |fields|
      invariant SealTo(vault, fields, v, nonces, i) == Ok(out)
    {
      var f := fields[i];
      if !f.secret {
        continue;
      }
      if f.name !in out || out[f.name].Nil? {
        continue;
      }
      var raw := out[f.name];
      if !raw.Str? || raw.s == "" || IsSealed(raw.s) {
        continue;
      }
      if vault.None? || nonces(i).None? {
        SealErrStays(vault, fields, v, nonces, i + 1, |fields|);
        return Err;
      }
      out := out[f.name := Str(Sealed(vault.value, nonces(i).value, raw.s))];
    }
    r := Ok(out);
  }

  method OpenValues(vault: Option<Crypto>, fields: seq<Field>, v: Values) returns (r: Result<Values>)
    ensures r == OpenTo(vault, fields, v, |fields|)
  {
    var out := v;
    for i := 0 to |fields|
      invariant OpenTo(vault, fields, v, i) == Ok(out)
    {
      var f := fields[i];
      if !f.secret {
        continue;
      }
      if f.name !in out || out[f.name].Nil? {
        continue;
      }
      var raw := out[f.name];
      if !raw.Str? || raw.s == "" {
        continue;
      }
      var plain := Open(vault, raw.s);
      if plain.Err? {
        OpenErrStays(vault, fields, v, i + 1, |fields|);
        return Err;
      }
      out := out[f.name := Str(plain.value)];
    }
    r := Ok(out);
  }

  /* ---------- What they do to each entry ---------- */

  predicate GoodNonces(nonces: nat -> Option<string>, n: nat) {
    forall i: nat | i < n :: nonces(i).Some? ==> |nonces(i).value| == NONCE_LENGTH
  }

  /** Key k is a secret field among the first n. */
  predicate SecretBefore(fields: seq<Field>, n: nat, k: string)
    requires n <= |fields|
  {
    n > 0 && (SecretBefore(fields, n - 1, k) || (fields[n - 1].secret && fields[n - 1].name == k))
  }

  lemma {:induction false} SecretAmong(fields: seq<Field>, n: nat, i: nat)
    requires i < n <= |fields| && fields[i].secret
    ensures SecretBefore(fields, n, fields[i].name)
  {
    if i < n - 1 {
      SecretAmong(fields, n - 1, i);
    }
  }

  predicate Plain(v: Values, k: string) { HasText(v, k) && !IsSealed(v[k].s) }

  /** Value y is a sealed form of text s. */
  predicate Seals(c: Crypto, y: Value, s: string) {
    y.Str? && IsSealed(y.s) && Open(Some(c), y.s) == Ok(s)
  }

  /** Entry k: sealed if it is a secret plain text seen so far, else as it was. */
  predicate SealedAt(c: Crypto, fields: seq<Field>, v: Values, out: Values, n: nat, k: string)
    requires n <= |fields|
  {
    && (k in out <==> k in v)
    && (k in v ==> if SecretBefore(fields, n, k) && Plain(v, k) then Seals(c, out[k], v[k].s) else out[k] == v[k])
  }

  /** Every entry sealed as far as the first n fields ask for it. */
  ghost predicate SealedUpTo(c: Crypto, fields: seq<Field>, v: Values, out: Values, n: nat)
    requires n <= |fields|
  {
    forall k: string :: SealedAt(c, fields, v, out, n, k)
  }

  /** What one field does to its own entry. */
  lemma SealOwn(c: Crypto, fields: seq<Field>, v: Values, out: Values, out': Values, i: nat, nonce: Option<string>)
    requires Inverse(c) && i < |fields| && SealedAt(c, fields, v, out, i, fields[i].name)
    requires nonce.Some? ==> |nonce.value| == NONCE_LENGTH
    requires SealField(Some(c), fields[i], out, nonce) == Ok(out')
    ensures SealedAt(c, fields, v, out', i + 1, fields[i].name)
  {
    if out' != out {
      OpenOfSealed(c, nonce.value, out[fields[i].name].s);
    }
  }

  lemma SealOther(c: Crypto, fields: seq<Field>, v: Values, out: Values, out': Values, i: nat, nonce: Option<string>, k: string)
    requires i < |fields| && k != fields[i].name && SealedAt(c, fields, v, out, i, k)
    requires SealField(Some(c), fields[i], out, nonce) == Ok(out')
    ensures SealedAt(c, fields, v, out', i + 1, k)
  {
  }

  lemma SealStep(c: Crypto, fields: seq<Field>, v: Values, out: Values, out': Values, i: nat, n: nat,
                 nonce: Option<string>)
    requires Inverse(c) && n == i + 1 <= |fields| && SealedUpTo(c, fields, v, out, i)
    requires nonce.Some? ==> |nonce.value| == NONCE_LENGTH
    requires SealField(Some(c), fields[i], out, nonce) == Ok(out')
    ensures SealedUpTo(c, fields, v, out', n)
  {
    forall k: string
      ensures SealedAt(c, fields, v, out', n, k)
    {
      assert SealedAt(c, fields, v, out, i, k);
      if k == fields[i].name {
        SealOwn(c, fields, v, out, out', i, nonce);
      } else {
        SealOther(c, fields, v, out, out', i, nonce, k);
      }
    }
  }

  lemma {:induction false} SealsSecrets(c: Crypto, fields: seq<Field>, v: Values, nonces: nat -> Option<string>, n: nat)
    requires Inverse(c) && n <= |fields| && GoodNonces(nonces, |fields|) && SealTo(Some(c), fields, v, nonces, n).Ok?
    ensures SealedUpTo(c, fields, v, SealTo(Some(c), fields, v, nonces, n).value, n)
  {
    if n > 0 {
      SealsSecrets(c, fields, v, nonces, n - 1);
      SealStep(c, fields, v, SealTo(Some(c), fields, v, nonces, n - 1).value,
               SealTo(Some(c), fields, v, nonces, n).value, n - 1, n, nonces(n - 1));
    }
  }

  /** No active secret entry already begins with the marker. */
  predicate NoneSealed(fields: seq<Field>, v: Values) {
    forall i | 0 <= i < |fields| :: fields[i].secret && HasText(v, fields[i].name) ==> !IsSealed(v[fields[i].name].s)
  }

  /** Entry k half opened: as in v if it has been opened, as in the sealed values otherwise. */
  predicate OpenedAt(fields: seq<Field>, v: Values, sealed: Values, out: Values, n: nat, k: string)
    requires n <= |fields|
  {
    && (k in out <==> k in v) && (k in sealed <==> k in v)
    && (k in v ==> out[k] == if SecretBefore(fields, n, k) then v[k] else sealed[k])
  }

  ghost predicate OpenedUpTo(fields: seq<Field>, v: Values, sealed: Values, out: Values, n: nat)
    requires n <= |fields|
  {
    forall k: string :: OpenedAt(fields, v, sealed, out, n, k)
  }

  /** Opening one secret field puts the original entry back. */
  lemma OpenOne(c: Crypto, fields: seq<Field>, v: Values, sealed: Values, out: Values, i: nat, name: string)
    requires i < |fields| && fields[i] == Field(name, true)
    requires HasText(v, name) ==> !IsSealed(v[name].s)
    requires SealedAt(c, fields, v, sealed, |fields|, name) && OpenedAt(fields, v, sealed, out, i, name)
    ensures OpenField(Some(c), fields[i], out) == Ok(if name in v then out[name := v[name]] else out)
  {
    SecretAmong(fields, |fields|, i);
    if name in v {
      if !SecretBefore(fields, i, name) && HasText(v, name) {
        assert Plain(v, name) && Seals(c, out[name], v[name].s);
      } else {
        assert out[name] == v[name];
        assert out[name := v[name]] == out;
      }
    }
  }

  lemma OpenedMore(fields: seq<Field>, v: Values, sealed: Values, out: Values, i: nat, out': Values, n: nat)
    requires n == i + 1 <= |fields| && OpenedUpTo(fields, v, sealed, out, i)
    requires out' == if fields[i].secret && fields[i].name in v then out[fields[i].name := v[fields[i].name]] else out
    ensures OpenedUpTo(fields, v, sealed, out', n)
  {
    forall k: string
      ensures OpenedAt(fields, v, sealed, out', n, k)
    {
      assert OpenedAt(fields, v, sealed, out, i, k);
    }
  }

  lemma OpenStep(c: Crypto, fields: seq<Field>, v: Values, sealed: Values, out: Values, i: nat, next: Result<Values>)
    requires NoneSealed(fields, v) && i < |fields|
    requires SealedUpTo(c, fields, v, sealed, |fields|) && OpenedUpTo(fields, v, sealed, out, i)
    requires next == OpenField(Some(c), fields[i], out)
    ensures next.Ok? && OpenedUpTo(fields, v, sealed, next.value, i + 1)
  {
    if fields[i].secret {
      var name := fields[i].name;
      assert SealedAt(c, fields, v, sealed, |fields|, name);
      assert OpenedAt(fields, v, sealed, out, i, name);
      OpenOne(c, fields, v, sealed, out, i, name);
    }
    OpenedMore(fields, v, sealed, out, i, next.value, i + 1);
  }

  lemma OpenStart(c: Crypto, fields: seq<Field>, v: Values, sealed: Values, out: Values, n: nat)
    requires n == 0 && out == sealed && SealedUpTo(c, fields, v, sealed, |fields|)
    ensures OpenedUpTo(fields, v, sealed, out, n)
  {
    forall k: string
      ensures OpenedAt(fields, v, sealed, out, n, k)
    {
      assert SealedAt(c, fields, v, sealed, |fields|, k);
    }
  }

  lemma {:induction false} OpensSecrets(c: Crypto, fields: seq<Field>, v: Values, sealed: Values, n: nat)
    requires NoneSealed(fields, v) && n <= |fields|
    requires SealedUpTo(c, fields, v, sealed, |fields|)
    ensures OpenTo(Some(c), fields, sealed, n).Ok?
    ensures OpenedUpTo(fields, v, sealed, OpenTo(Some(c), fields, sealed, n).value, n)
  {
    if n == 0 {
      OpenStart(c, fields, v, sealed, sealed, n);
    } else {
      OpensSecrets(c, fields, v, sealed, n - 1);
      OpenStep(c, fields, v, sealed, OpenTo(Some(c), fields, sealed, n - 1).value, n - 1, OpenTo(Some(c), fields, sealed, n));
    }
  }

  /** A text that already begins with the marker is not given back: opening shortens it or fails. */
  lemma OpenShortens(c: Crypto, s: string)
    requires Shrinks(c)
    ensures Open(Some(c), s).Ok? ==> |Open(Some(c), s).value| <= |s|
    ensures Open(Some(c), s).Ok? && IsSealed(s) ==> |Open(Some(c), s).value| < |s|
  {
  }

  /** Once a field has been opened, a text that began with the marker stays shorter than it was. */
  lemma {:induction false} OpenedIsShorter(c: Crypto, fields: seq<Field>, v: Values, n: nat, k: string)
    requires Shrinks(c) && n <= |fields| && HasText(v, k) && IsSealed(v[k].s) && OpenTo(Some(c), fields, v, n).Ok?
    ensures var out := OpenTo(Some(c), fields, v, n).value;
            && k in out && out[k].Str?
            && (if SecretBefore(fields, n, k) then |out[k].s| < |v[k].s| else out[k] == v[k])
  {
    if n > 0 {
      OpenedIsShorter(c, fields, v, n - 1, k);
      OpenShortens(c, OpenTo(Some(c), fields, v, n - 1).value[k].s);
    }
  }

  /** Opening the sealed values gives the original values back, duplicate fields included, exactly when
      no secret text begins with the marker. */
  lemma OpenUndoesSeal(c: Crypto, fields: seq<Field>, v: Values, nonces: nat -> Option<string>)
    requires Inverse(c) && Shrinks(c) && GoodNonces(nonces, |fields|)
    requires SealTo(Some(c), fields, v, nonces, |fields|).Ok?
    ensures OpenTo(Some(c), fields, SealTo(Some(c), fields, v, nonces, |fields|).value, |fields|) == Ok(v)
       <==> NoneSealed(fields, v)
  {
    var sealed := SealTo(Some(c), fields, v, nonces, |fields|).value;
    SealsSecrets(c, fields, v, nonces, |fields|);
    if NoneSealed(fields, v) {
      OpensSecrets(c, fields, v, sealed, |fields|);
      OpenedAll(c, fields, v, sealed, OpenTo(Some(c), fields, sealed, |fields|).value);
    } else {
      var i :| 0 <= i < |fields| && fields[i].secret && HasText(v, fields[i].name) && IsSealed(v[fields[i].name].s);
      var k := fields[i].name;
      SecretAmong(fields, |fields|, i);
      assert SealedAt(c, fields, v, sealed, |fields|, k);
      if OpenTo(Some(c), fields, sealed, |fields|).Ok? {
        OpenedIsShorter(c, fields, sealed, |fields|, k);
      }
    }
  }

  /** A secret that begins with the marker is stored as it is and does not come back. */
  lemma MarkedSecretIsLost(c: Crypto, nonce: string)
    requires Inverse(c) && Shrinks(c) && |nonce| == NONCE_LENGTH
    ensures var fields, v := [Field("token", true)], map["token" := Str("sealed:x")];
            var sealed := SealTo(Some(c), fields, v, (i: nat) => Some(nonce), 1);
            sealed == Ok(v) && OpenTo(Some(c), fields, v, 1) != Ok(v)
  {
    var fields, v := [Field("token", true)], map["token" := Str("sealed:x")];
    var nonces: nat -> Option<string> := (i: nat) => Some(nonce);
    assert "sealed:x"[..7] == PREFIX;
    assert SealTo(Some(c), fields, v, nonces, 0) == Ok(v);
    assert SealTo(Some(c), fields, v, nonces, 1) == Ok(v);
    assert fields[0].secret && HasText(v, fields[0].name) && IsSealed(v[fields[0].name].s);
    OpenUndoesSeal(c, fields, v, nonces);
  }

  lemma OpenedAll(c: Crypto, fields: seq<Field>, v: Values, sealed: Values, out: Values)
    requires SealedUpTo(c, fields, v, sealed, |fields|) && OpenedUpTo(fields, v, sealed, out, |fields|)
    ensures out == v
  {
    forall k: string
      ensures k in out <==> k in v
      ensures k in v ==> out[k] == v[k]
    {
      assert SealedAt(c, fields, v, sealed, |fields|, k) && OpenedAt(fields, v, sealed, out, |fields|, k);
    }
  }

  /** Sealing sealed values changes nothing and needs neither a vault nor a nonce. */
  lemma {:induction false} SealIdempotent(c: Crypto, fields: seq<Field>, v: Values, sealed: Values,
                                          vault: Option<Crypto>, nonces: nat -> Option<string>, n: nat)
    requires n <= |fields| && SealedUpTo(c, fields, v, sealed, |fields|)
    ensures SealTo(vault, fields, sealed, nonces, n) == Ok(sealed)
  {
    if n > 0 {
      SealIdempotent(c, fields, v, sealed, vault, nonces, n - 1);
      if fields[n - 1].secret {
        SecretAmong(fields, |fields|, n - 1);
        assert SealedAt(c, fields, v, sealed, |fields|, fields[n - 1].name);
      }
    }
  }

  /** Opening touches no entry that is not a secret field's text. */
  lemma {:induction false} OthersUntouched(c: Crypto, fields: seq<Field>, v: Values, n: nat, k: string)
    requires n <= |fields| && OpenTo(Some(c), fields, v, n).Ok?
    requires k in v && (!SecretBefore(fields, |fields|, k) || !HasText(v, k))
    ensures var out := OpenTo(Some(c), fields, v, n).value; k in out && out[k] == v[k]
  {
    if n > 0 {
      OthersUntouched(c, fields, v, n - 1, k);
      if fields[n - 1].secret {
        SecretAmong(fields, |fields|, n - 1);
      }
    }
  }

  /* ---------- What sealing does to each entry, field by field ---------- */

  lemma {:induction false} SecretMeans(fields: seq<Field>, n: nat, k: string)
    requires n <= |fields|
    ensures SecretBefore(fields, n, k) <==> exists i :: 0 <= i < n && fields[i].secret && fields[i].name == k
  {
    if n > 0 {
      SecretMeans(fields, n - 1, k);
    }
  }

  /** A text that sealing must not leave as it is: not empty and not yet marked. */
  predicate Unsealed(v: Values, k: string) {
    k in v && v[k].Str? && v[k].s != "" && !(|v[k].s| >= 7 && v[k].s[..7] == "sealed:")
  }

  lemma UnsealedMeans(v: Values, k: string)
    ensures Unsealed(v, k) <==> Plain(v, k)
  {
    assert |PREFIX| == 7;
  }

  /** After sealing, an entry that a secret field names and that held an unmarked text holds a marked text that opens
      to it; every other entry is as it was, and none is added or removed. */
  lemma SealedEntries(c: Crypto, fields: seq<Field>, v: Values, nonces: nat -> Option<string>, k: string, out: Values)
    requires Inverse(c) && GoodNonces(nonces, |fields|) && SealTo(Some(c), fields, v, nonces, |fields|) == Ok(out)
    ensures k in out <==> k in v
    ensures k in v && (exists i :: 0 <= i < |fields| && fields[i].secret && fields[i].name == k) && Unsealed(v, k) ==>
              && out[k].Str? && |out[k].s| >= 7 && out[k].s[..7] == "sealed:"
              && Open(Some(c), out[k].s) == Ok(v[k].s)
    ensures k in v && !((exists i :: 0 <= i < |fields| && fields[i].secret && fields[i].name == k) && Unsealed(v, k)) ==>
              out[k] == v[k]
  {
    SealsSecrets(c, fields, v, nonces, |fields|);
    SecretMeans(fields, |fields|, k);
    UnsealedMeans(v, k);
    assert SealedAt(c, fields, v, out, |fields|, k);
  }

  /* ---------- When sealing fails ---------- */

  /** Field i is the first to ask for its entry to be sealed. */
  ghost predicate Asks(fields: seq<Field>, v: Values, i: nat)
    requires i < |fields|
  {
    fields[i].secret && Unsealed(v, fields[i].name) && forall j | 0 <= j < i && fields[j].secret :: fields[j].name != fields[i].name
  }

  lemma {:induction false} WithoutVault(fields: seq<Field>, v: Values, nonces: nat -> Option<string>, n: nat)
    requires n <= |fields|
    ensures SealTo(None, fields, v, nonces, n) ==
              if exists i :: 0 <= i < n && fields[i].secret && Unsealed(v, fields[i].name) then Err else Ok(v)
  {
    if n > 0 {
      WithoutVault(fields, v, nonces, n - 1);
      UnsealedMeans(v, fields[n - 1].name);
    }
  }

  /** Field i, once the fields before it were sealed, asks for a nonce exactly when it is the first for its entry. */
  lemma AskedAt(c: Crypto, fields: seq<Field>, v: Values, out: Values, i: nat, nonce: Option<string>)
    requires i < |fields| && SealedUpTo(c, fields, v, out, i)
    ensures SealField(Some(c), fields[i], out, nonce).Err? <==> Asks(fields, v, i) && nonce == None
  {
    var k := fields[i].name;
    assert SealedAt(c, fields, v, out, i, k);
    SecretMeans(fields, i, k);
    UnsealedMeans(v, k);
  }

  /** With a vault, sealing fails exactly when no nonce can be had for a field that is the first to ask for its
      entry to be sealed. */
  lemma {:induction false} SealFailsExactly(c: Crypto, fields: seq<Field>, v: Values, nonces: nat -> Option<string>, n: nat)
    requires Inverse(c) && n <= |fields| && GoodNonces(nonces, |fields|)
    ensures SealTo(Some(c), fields, v, nonces, n).Err? <==> exists i: nat :: i < n && Asks(fields, v, i) && nonces(i) == None
  {
    if n > 0 {
      SealFailsExactly(c, fields, v, nonces, n - 1);
      var front := SealTo(Some(c), fields, v, nonces, n - 1);
      if front.Ok? {
        SealsSecrets(c, fields, v, nonces, n - 1);
        AskedAt(c, fields, v, front.value, n - 1, nonces(n - 1));
      }
    }
  }

  /* ---------- What opening does to each entry ---------- */

  /** No two secret fields name the same entry. */
  ghost predicate OnceEach(fields: seq<Field>) {
    forall i, j | 0 <= i < j < |fields| && fields[i].secret && fields[j].secret :: fields[i].name != fields[j].name
  }

  /** Entry k: what opening its text gives if a secret field seen so far names it, else as it was. */
  predicate OpensTo(vault: Option<Crypto>, fields: seq<Field>, v: Values, out: Values, n: nat, k: string)
    requires n <= |fields|
  {
    && (k in out <==> k in v)
    && (k in v ==> if SecretBefore(fields, n, k) && HasText(v, k)
                   then Open(vault, v[k].s).Ok? && out[k] == Str(Open(vault, v[k].s).value) else out[k] == v[k])
  }

  predicate FailsToOpen(vault: Option<Crypto>, fields: seq<Field>, v: Values, i: nat)
    requires i < |fields|
  {
    fields[i].secret && HasText(v, fields[i].name) && Open(vault, v[fields[i].name].s).Err?
  }

  lemma OpenFieldMeans(vault: Option<Crypto>, fields: seq<Field>, v: Values, out: Values, i: nat, n: nat)
    requires n == i + 1 <= |fields| && OnceEach(fields) && forall k: string :: OpensTo(vault, fields, v, out, i, k)
    ensures OpenField(vault, fields[i], out).Err? <==> FailsToOpen(vault, fields, v, i)
    ensures OpenField(vault, fields[i], out).Ok? ==>
              forall k: string :: OpensTo(vault, fields, v, OpenField(vault, fields[i], out).value, n, k)
  {
    var name := fields[i].name;
    SecretMeans(fields, i, name);
    assert OpensTo(vault, fields, v, out, i, name);
    if OpenField(vault, fields[i], out).Ok? {
      var out' := OpenField(vault, fields[i], out).value;
      forall k: string
        ensures OpensTo(vault, fields, v, out', n, k)
      {
        assert OpensTo(vault, fields, v, out, i, k);
      }
    }
  }

  /** When no two secret fields name the same entry, opening fails exactly when some secret text does not open, and
      otherwise replaces each secret text by what it opens to and leaves every other entry as it was. */
  lemma {:induction false} OpensExactly(vault: Option<Crypto>, fields: seq<Field>, v: Values, n: nat)
    requires n <= |fields| && OnceEach(fields)
    ensures OpenTo(vault, fields, v, n).Err? <==> exists i: nat :: i < n && FailsToOpen(vault, fields, v, i)
    ensures OpenTo(vault, fields, v, n).Ok? ==>
              forall k: string :: OpensTo(vault, fields, v, OpenTo(vault, fields, v, n).value, n, k)
  {
    if n > 0 {
      OpensExactly(vault, fields, v, n - 1);
      var front := OpenTo(vault, fields, v, n - 1);
      if front.Ok? {
        OpenFieldMeans(vault, fields, v, front.value, n - 1, n);
      }
    }
  }
}
