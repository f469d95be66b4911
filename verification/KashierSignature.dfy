/** The canonical string that Kashier webhooks are signed over
    (src/pkg/payments/kashier/kashier.signature.ts): the named keys sorted, each
    with its percent-encoded value, joined by '&'. */
module KashierSignature {
  import opened Prelude
  import opened Sorting

  /** A value as the UTF-8 bytes that encodeURIComponent works on. */
  type Byte = b: int | 0 <= b < 256

  // ---- encodeURIComponent (section 2.1 of RFC 3986) -------------------------

  predicate Unreserved(b: Byte) {
    || 'A' as int <= b <= 'Z' as int || 'a' as int <= b <= 'z' as int || '0' as int <= b <= '9' as int
    || (b < 128 && b as char in "-_.!~*'()")
  }

  function HexDigit(n: int): char
    requires 0 <= n < 16
  {
    "0123456789ABCDEF"[n]
  }

  function HexValue(c: char): Option<int> {
    if '0' <= c <= '9' then Some(c as int - '0' as int)
    else if 'A' <= c <= 'F' then Some(c as int - 'A' as int + 10)
    else None
  }

  function Escape(b: Byte): string {
    if Unreserved(b) then [b as char] else ['%', HexDigit(b / 16), HexDigit(b % 16)]
  }

  function Encode(value: seq<Byte>): string {
    if value == [] then "" else Escape(value[0]) + Encode(value[1..])
  }

  /** decodeURIComponent on the image of Encode; None on anything malformed. */
  function Decode(s: string): Option<seq<Byte>> {
    if s == "" then Some([])
    else if s[0] == '%' then
      if |s| < 3 then None
      else
        match (HexValue(s[1]), HexValue(s[2]), Decode(s[3..]))
        case (Some(hi), Some(lo), Some(rest)) =>
          var b := 16 * hi + lo;
          if 0 <= b < 256 then Some([b] + rest) else None
        case _ => None
    else
      match Decode(s[1..])
      case Some(rest) => if s[0] as int < 256 then Some([s[0] as int] + rest) else None
      case None => None
  }

  lemma HexRoundTrip(n: int)
    requires 0 <= n < 16
    ensures HexValue(HexDigit(n)) == Some(n) && HexDigit(n) != '&'
  {
  }

  lemma {:induction false} DecodeEncode(value: seq<Byte>)
    ensures Decode(Encode(value)) == Some(value)
  {
    if value != [] {
      var b, rest := value[0], value[1..];
      DecodeEncode(rest);
      var s := Encode(value);
      if Unreserved(b) {
        assert s[1..] == Encode(rest);
        assert [s[0] as int] + rest == value;
      } else {
        HexRoundTrip(b / 16);
        HexRoundTrip(b % 16);
        assert s[3..] == Encode(rest);
        assert [b] + rest == value;
      }
    }
  }

  lemma {:induction false} EncodedHasNoSeparator(value: seq<Byte>)
    ensures '&' !in Encode(value)
  {
    if value != [] {
      EncodedHasNoSeparator(value[1..]);
      if !Unreserved(value[0]) {
        HexRoundTrip(value[0] / 16);
        HexRoundTrip(value[0] % 16);
      }
    }
  }

  /** What an encoded value is made of. */
  predicate Plain(c: char) {
    || c in "ABCDEFGHIJKLMNOPQRSTUVWXYZ" || c in "abcdefghijklmnopqrstuvwxyz" || c in "0123456789"
    || c in ['-', '_', '.', '!', '~', '*', '\'', '(', ')']
  }

  lemma InAlphabet(alphabet: string, first: int, b: Byte)
    requires forall i :: 0 <= i < |alphabet| ==> alphabet[i] as int == first + i
    ensures b as char in alphabet <==> first <= b < first + |alphabet|
  {
    if first <= b < first + |alphabet| { assert alphabet[b - first] == b as char; }
  }

  lemma UnreservedIsPlain(b: Byte)
    ensures Unreserved(b) <==> Plain(b as char)
  {
    InAlphabet("ABCDEFGHIJKLMNOPQRSTUVWXYZ", 65, b);
    InAlphabet("abcdefghijklmnopqrstuvwxyz", 97, b);
    InAlphabet("0123456789", 48, b);
  }

  /** A plain character stands for itself; every other byte, such as a space, '|',
      '%', '&' or '=', becomes '%' and its value in two upper-case hex digits. */
  lemma EscapeIs(b: Byte)
    ensures Plain(b as char) ==> Escape(b) == [b as char]
    ensures !Plain(b as char) ==> Escape(b) == ['%', "0123456789ABCDEF"[b / 16], "0123456789ABCDEF"[b % 16]]
  {
    UnreservedIsPlain(b);
  }

  /** Byte by byte, so that values may be encoded piece by piece. */
  lemma {:induction false} EncodeAppends(v: seq<Byte>, w: seq<Byte>)
    ensures Encode(v + w) == Encode(v) + Encode(w)
    ensures v == [] ==> Encode(v) == ""
    ensures |v| == 1 ==> Encode(v) == Escape(v[0])
  {
    if v == [] {
      assert v + w == w;
    } else {
      assert (v + w)[1..] == v[1..] + w;
      EncodeAppends(v[1..], w);
    }
  }

  /** So the encoded text has no other character than these. */
  lemma {:induction false} EncodedCharacters(value: seq<Byte>, c: char)
    requires c in Encode(value)
    ensures Plain(c) || c == '%'
  {
    var b := value[0];
    UnreservedIsPlain(b);
    if c in Escape(b) {
      if !Unreserved(b) && c != '%' {
        HexIsPlain(b / 16);
        HexIsPlain(b % 16);
      }
    } else {
      EncodedCharacters(value[1..], c);
    }
  }

  lemma HexIsPlain(n: int)
    requires 0 <= n < 16
    ensures Plain(HexDigit(n))
  {
    if n < 10 {
      assert HexDigit(n) == "0123456789"[n];
    } else {
      assert HexDigit(n) == "ABCDEFGHIJKLMNOPQRSTUVWXYZ"[n - 10];
    }
  }

  // ---- Array.prototype.sort on strings ----------------------------------------

  /** Comparison by characters. JavaScript compares UTF-16 code units, which is the same
      order within the basic plane; the theorems only use that it is a total one. */
  predicate Lex(a: string, b: string) {
    if a == "" then true
    else if b == "" then false
    else if a[0] != b[0] then a[0] < b[0]
    else Lex(a[1..], b[1..])
  }

  lemma {:induction false} LexTotal(a: string, b: string)
    ensures Lex(a, b) || Lex(b, a)
  {
    if a != "" && b != "" && a[0] == b[0] { LexTotal(a[1..], b[1..]); }
  }

  lemma {:induction false} LexTransitive(a: string, b: string, c: string)
    requires Lex(a, b) && Lex(b, c)
    ensures Lex(a, c)
  {
    if a != "" && b != "" && c != "" && a[0] == b[0] == c[0] { LexTransitive(a[1..], b[1..], c[1..]); }
  }

  lemma {:induction false} LexAntisymmetric(a: string, b: string)
    requires Lex(a, b) && Lex(b, a)
    ensures a == b
  {
    if a != "" && b != "" {
      LexAntisymmetric(a[1..], b[1..]);
      assert a == [a[0]] + a[1..] && b == [b[0]] + b[1..];
    }
  }

  /** The lexicographic order: a prefix first, and otherwise by the first character
      that differs. */
  ghost predicate NotBehind(a: string, b: string) {
    a <= b || exists k :: DiffersAt(a, b, k) && a[k] < b[k]
  }

  predicate DiffersAt(a: string, b: string, k: int) {
    0 <= k < |a| && k < |b| && a[..k] == b[..k] && a[k] != b[k]
  }

  lemma {:induction false} LexIs(a: string, b: string)
    ensures Lex(a, b) <==> NotBehind(a, b)
  {
    if a != "" && b != "" {
      if a[0] == b[0] {
        LexIs(a[1..], b[1..]);
        SameHead(a, b);
      } else {
        assert DiffersAt(a, b, 0);
        forall k ensures DiffersAt(a, b, k) && k > 0 ==> a[0] == b[0] { HeadBeforeDifference(a, b, k); }
      }
    }
  }

  lemma HeadBeforeDifference(a: string, b: string, k: int)
    ensures DiffersAt(a, b, k) && k > 0 ==> a[0] == b[0]
  {
    if DiffersAt(a, b, k) && k > 0 { assert a[0] == a[..k][0] && b[0] == b[..k][0]; }
  }

  lemma SameHead(a: string, b: string)
    requires a != "" && b != "" && a[0] == b[0]
    ensures NotBehind(a, b) <==> NotBehind(a[1..], b[1..])
  {
    var c, d := a[1..], b[1..];
    assert a == [a[0]] + c && b == [b[0]] + d;
    if k :| DiffersAt(a, b, k) && a[k] < b[k] {
      assert c[..k - 1] == a[..k][1..] && d[..k - 1] == b[..k][1..];
      assert DiffersAt(c, d, k - 1);
    }
    if k :| DiffersAt(c, d, k) && c[k] < d[k] {
      assert a[..k + 1] == [a[0]] + c[..k] && b[..k + 1] == [b[0]] + d[..k];
      assert DiffersAt(a, b, k + 1);
    }
  }

  lemma LexIsOrder()
    ensures TotalPreorder(Lex)
  {
    forall a, b ensures Lex(a, b) || Lex(b, a) { LexTotal(a, b); }
    forall a, b, c | Lex(a, b) && Lex(b, c) ensures Lex(a, c) { LexTransitive(a, b, c); }
  }

  // ---- the canonical string ------------------------------------------------

  /** String(payload[key]) for every key; a missing key reads as "undefined". */
  type Payload = string -> seq<Byte>

  function Pair(payload: Payload, key: string): string {
    key + "=" + Encode(payload(key))
  }

  function Join(payload: Payload, keys: seq<string>): string {
    if keys == [] then ""
    else if |keys| == 1 then Pair(payload, keys[0])
    else Pair(payload, keys[0]) + "&" + Join(payload, keys[1..])
  }

  function Canonical(payload: Payload, signatureKeys: seq<string>): string {
    Join(payload, Sort(signatureKeys, Lex))
  }

  /** The order in which the payload lists its signature keys does not matter. */
  lemma CanonicalIgnoresKeyOrder(payload: Payload, ks: seq<string>, ls: seq<string>)
    requires multiset(ks) == multiset(ls)
    ensures Canonical(payload, ks) == Canonical(payload, ls)
  {
    LexIsOrder();
    SortIsSorted(ks, Lex);
    SortIsSorted(ls, Lex);
    forall a, b | Lex(a, b) && Lex(b, a) ensures a == b { LexAntisymmetric(a, b); }
    SortedIsUnique(Sort(ks, Lex), Sort(ls, Lex), Lex);
  }

  lemma {:induction false} JoinAppends(p: Payload, keys: seq<string>, last: string)
    requires keys != []
    ensures Join(p, keys + [last]) == Join(p, keys) + "&" + Pair(p, last)
  {
    hide Pair;
    var all, rest := keys + [last], keys[1..];
    if |keys| == 1 {
      assert all[1..] == [last];
    } else {
      assert all[1..] == rest + [last];
      JoinAppends(p, rest, last);
      Regroup(Pair(p, keys[0]) + "&", Join(p, rest), "&" + Pair(p, last));
      Regroup(Join(p, rest), "&", Pair(p, last));
      Regroup(Join(p, keys), "&", Pair(p, last));
    }
  }

  lemma Regroup(a: string, b: string, c: string)
    ensures (a + b) + c == a + (b + c)
  {
  }

  lemma SortAppends(keys: seq<string>, last: string)
    requires forall k :: k in keys ==> NotBehind(k, last)
    ensures Sort(keys + [last], Lex) == Sort(keys, Lex) + [last]
  {
    hide NotBehind;
    var s := Sort(keys, Lex);
    LexIsOrder();
    SortIsSorted(keys, Lex);
    SortIsSorted(keys + [last], Lex);
    hide Lex, Sort;
    forall i | 0 <= i < |s| ensures Lex(s[i], last) {
      assert s[i] in multiset(s);
      LexIs(s[i], last);
    }
    forall a, b | Lex(a, b) && Lex(b, a) ensures a == b { LexAntisymmetric(a, b); }
    SortedIsUnique(Sort(keys + [last], Lex), s + [last], Lex);
  }

  /** The whole text, key by key: nothing for no key, then each key's pair behind
      those of the keys before it in the lexicographic order. */
  lemma CanonicalIs(p: Payload, keys: seq<string>, last: string)
    requires forall k :: k in keys ==> NotBehind(k, last)
    ensures Canonical(p, []) == ""
    ensures keys == [] ==> Canonical(p, [last]) == last + "=" + Encode(p(last))
    ensures keys != [] ==> Canonical(p, keys + [last]) == Canonical(p, keys) + "&" + (last + "=" + Encode(p(last)))
  {
    hide NotBehind;
    if keys != [] {
      SortAppends(keys, last);
      LexIsOrder();
      SortIsSorted(keys, Lex);
      assert keys[0] in multiset(keys);
      assert keys[0] in multiset(Sort(keys, Lex));
      JoinAppends(p, Sort(keys, Lex), last);
      assert Pair(p, last) == last + "=" + Encode(p(last));
      assert Canonical(p, keys + [last]) == Join(p, Sort(keys, Lex) + [last]);
    }
    assert Sort<string>([last][1..], Lex) == [];
    assert Sort([last], Lex) == [last];
  }

  /** A value without '&' can be told apart from what follows it. */
  lemma {:induction false} SplitAtSeparator(e: string, f: string, r: string, t: string)
    requires '&' !in e && '&' !in f
    requires e + r == f + t
    requires (r == "" || r[0] == '&') && (t == "" || t[0] == '&')
    ensures e == f && r == t
  {
    assert e != "" ==> (e + r)[0] == e[0];
    assert f != "" ==> (f + t)[0] == f[0];
    if e == "" || f == "" {
      assert "" + r == r && "" + t == t;
    } else {
      assert (e + r)[1..] == e[1..] + r && (f + t)[1..] == f[1..] + t;
      SplitAtSeparator(e[1..], f[1..], r, t);
      assert e == [e[0]] + e[1..] && f == [f[0]] + f[1..];
    }
  }

  function Rest(payload: Payload, keys: seq<string>): string {
    if |keys| <= 1 then "" else "&" + Join(payload, keys[1..])
  }

  lemma JoinShape(p: Payload, keys: seq<string>)
    requires keys != []
    ensures Join(p, keys) == keys[0] + "=" + (Encode(p(keys[0])) + Rest(p, keys))
  {
  }

  lemma CancelPrefix(head: string, a: string, b: string)
    requires head + a == head + b
    ensures a == b
  {
    assert a == (head + a)[|head|..] && b == (head + b)[|head|..];
  }

  lemma {:induction false} JoinDeterminesValues(p: Payload, q: Payload, keys: seq<string>)
    requires Join(p, keys) == Join(q, keys)
    ensures forall k :: k in keys ==> p(k) == q(k)
  {
    if keys != [] {
      FirstValueDetermined(p, q, keys);
      if |keys| > 1 {
        CancelPrefix("&", Join(p, keys[1..]), Join(q, keys[1..]));
        JoinDeterminesValues(p, q, keys[1..]);
      }
      assert keys == [keys[0]] + keys[1..];
    }
  }

  lemma FirstValueDetermined(p: Payload, q: Payload, keys: seq<string>)
    requires keys != [] && Join(p, keys) == Join(q, keys)
    ensures p(keys[0]) == q(keys[0]) && Rest(p, keys) == Rest(q, keys)
  {
    var k := keys[0];
    JoinShape(p, keys);
    JoinShape(q, keys);
    CancelPrefix(k + "=", Encode(p(k)) + Rest(p, keys), Encode(q(k)) + Rest(q, keys));
    EncodedHasNoSeparator(p(k));
    EncodedHasNoSeparator(q(k));
    SplitAtSeparator(Encode(p(k)), Encode(q(k)), Rest(p, keys), Rest(q, keys));
    DecodeEncode(p(k));
    DecodeEncode(q(k));
  }

  lemma {:induction false} JoinDependsOnValues(p: Payload, q: Payload, keys: seq<string>)
    requires forall k :: k in keys ==> p(k) == q(k)
    ensures Join(p, keys) == Join(q, keys)
  {
    if |keys| > 1 { JoinDependsOnValues(p, q, keys[1..]); }
  }

  /** For a fixed key list, two payloads have the same canonical string exactly
      when they agree on every named key. */
  lemma CanonicalIsInjective(p: Payload, q: Payload, signatureKeys: seq<string>)
    ensures Canonical(p, signatureKeys) == Canonical(q, signatureKeys)
       <==> forall k :: k in signatureKeys ==> p(k) == q(k)
  {
    var sorted := Sort(signatureKeys, Lex);
    LexIsOrder();
    SortIsSorted(signatureKeys, Lex);
    forall k ensures k in sorted <==> k in signatureKeys {
      assert k in multiset(sorted) <==> k in multiset(signatureKeys);
    }
    if Canonical(p, signatureKeys) == Canonical(q, signatureKeys) { JoinDeterminesValues(p, q, sorted); }
    if forall k :: k in signatureKeys ==> p(k) == q(k) { JoinDependsOnValues(p, q, sorted); }
  }
}
