/** `sign_raw` and `verify_raw` of `shared/webhook.py`: the printer of a signature header and its
    parser. HMAC-SHA256 (section 2 of RFC 2104) is an arbitrary function to hexadecimal text. */
module Webhooks {
  import opened Wrappers
  import opened Decimal
  import opened Utf8

  /** `hmac.new(secret, content, sha256).hexdigest()`. */
  type Mac = (string, Bytes) -> string

  predicate IsHex(s: string) {
    forall c | c in s :: '0' <= c <= '9' || 'a' <= c <= 'f'
  }

  /** A digest of SHA-256 has 32 bytes, two digits each. */
  ghost predicate HexValued(mac: Mac) {
    forall secret, content :: IsHex(mac(secret, content)) && |mac(secret, content)| == 64
  }

  const ALGORITHM := "sha256"

  lemma StrIsAscii(n: int)
    ensures IsAscii(Str(n) + ".")
  {
  }

  /** The bytes that are signed: the printed timestamp, a full stop, the payload. */
  function SignedContent(ts: int, payload: Bytes): Bytes {
    Encode(Str(ts) + ".") + payload
  }

  function Header(ts: int, sig: string): string {
    "t=" + Str(ts) + "," + ALGORITHM + "=" + sig
  }

  function SignRaw(mac: Mac, secret: string, payload: Bytes, timestamp: Option<int>, now: int): string {
    var ts := if timestamp == None || timestamp.value == 0 then now else timestamp.value;
    Header(ts, mac(secret, SignedContent(ts, payload)))
  }

  // ---------------------------------------------------------------------------------------
  // The parser

  /** `s.split(sep)`. */
  function Split(s: string, sep: char): (parts: seq<string>)
    ensures |parts| > 0
  {
    if s == "" then [""]
    else
      var rest := Split(s[1..], sep);
      if s[0] == sep then [""] + rest else [[s[0]] + rest[0]] + rest[1..]
  }

  /** `s.split(sep, 1)`, when there is a separator. */
  function SplitOnce(s: string, sep: char): Option<(string, string)> {
    if s == "" then None
    else if s[0] == sep then Some(("", s[1..]))
    else
      match SplitOnce(s[1..], sep)
      case None => None
      case Some((a, b)) => Some(([s[0]] + a, b))
  }

  /** `dict(part.split("=", 1) for part in parts)`: later keys win, and a part without "=" is a
      ValueError (`None`). */
  function ParseParts(parts: seq<string>): Option<map<string, string>> {
    if parts == [] then Some(map[])
    else
      match ParseParts(parts[..|parts| - 1])
      case None => None
      case Some(m) =>
        (match SplitOnce(parts[|parts| - 1], '=')
         case None => None
         case Some((k, v)) => Some(m[k := v]))
  }

  datatype Parsed = Parsed(ts: int, sig: string)

  /** `None` is the header that the parser calls malformed. */
  function ParseHeader(header: string): Option<Parsed> {
    match ParseParts(Split(header, ','))
    case None => None
    case Some(m) =>
      if "t" !in m then None
      else
        match ParseInt(m["t"])
        case None => None
        case Some(ts) => Some(Parsed(ts, if ALGORITHM in m then m[ALGORITHM] else ""))
  }

  function Distance(a: int, b: int): nat { if a < b then b - a else a - b }

  /** The verdict, or the TypeError that `compare_digest` raises for non-ASCII text. */
  datatype Verdict = Valid | Invalid | TypeError

  function VerifyRaw(mac: Mac, secret: string, payload: Bytes, header: string, tolerance: int, now: int): Verdict {
    match ParseHeader(header)
    case None => Invalid
    case Some(Parsed(ts, sig)) =>
      if Distance(now, ts) > tolerance then Invalid
      else
        var expected := mac(secret, SignedContent(ts, payload));
        if !IsAscii(expected) || !IsAscii(sig) then TypeError
        else if expected == sig then Valid else Invalid
  }

  // ---------------------------------------------------------------------------------------
  // The parser reads what the printer writes

  lemma {:induction false} SplitWithout(s: string, sep: char)
    requires sep !in s
    ensures Split(s, sep) == [s]
  {
    if s != "" {
      SplitWithout(s[1..], sep);
      assert s[0] in s && [s[0]] + s[1..] == s;
    }
  }

  lemma {:induction false} SplitAt(a: string, b: string, sep: char)
    requires sep !in a
    ensures Split(a + [sep] + b, sep) == [a] + Split(b, sep)
  {
    var s := a + [sep] + b;
    if a == "" {
      assert s[1..] == b;
    } else {
      assert s[1..] == a[1..] + [sep] + b;
      SplitAt(a[1..], b, sep);
      var rest := [a[1..]] + Split(b, sep);
      assert rest[0] == a[1..] && rest[1..] == Split(b, sep);
      assert [s[0]] + a[1..] == a && s[0] in a;
    }
  }

  lemma {:induction false} SplitOnceAt(a: string, b: string, sep: char)
    requires sep !in a
    ensures SplitOnce(a + [sep] + b, sep) == Some((a, b))
  {
    var s := a + [sep] + b;
    if a == "" {
      assert s[1..] == b;
    } else {
      assert s[1..] == a[1..] + [sep] + b;
      SplitOnceAt(a[1..], b, sep);
      assert [s[0]] + a[1..] == a;
    }
  }

  lemma ParseTwoParts(x: string, y: string)
    ensures ParseParts(["t=" + x, ALGORITHM + "=" + y]) == Some(map["t" := x, ALGORITHM := y])
  {
    var p, q := "t=" + x, ALGORITHM + "=" + y;
    assert p == "t" + ['='] + x && q == ALGORITHM + ['='] + y;
    SplitOnceAt("t", x, '=');
    SplitOnceAt(ALGORITHM, y, '=');
    assert [p, q][..1] == [p] && [p][..0] == [];
    assert ParseParts([p]) == Some(map["t" := x]);
  }

  /** Printing and parsing a header is the identity. */
  lemma ParsePrinted(ts: int, sig: string)
    requires ',' !in sig
    ensures ParseHeader(Header(ts, sig)) == Some(Parsed(ts, sig))
  {
    var p, q := "t=" + Str(ts), ALGORITHM + "=" + sig;
    assert Header(ts, sig) == p + [','] + q;
    assert ',' !in Str(ts) && ',' !in ALGORITHM;
    SplitAt(p, q, ',');
    SplitWithout(q, ',');
    assert Split(Header(ts, sig), ',') == [p, q];
    ParseTwoParts(Str(ts), sig);
    ParseStr(ts);
    assert ALGORITHM != "t" by { assert |ALGORITHM| == 6 && |"t"| == 1; }
    var m := map["t" := Str(ts), ALGORITHM := sig];
    assert m["t"] == Str(ts) && m[ALGORITHM] == sig;
  }

  /** Where the shorter prefix ends, the longer one has its full stop. */
  lemma StopAt(a: string, b: string, x: Bytes, y: Bytes)
    requires IsAscii(a + ".") && IsAscii(b + ".") && |a| < |b|
    requires Encode(a + ".") + x == Encode(b + ".") + y
    ensures b[|a|] == '.'
  {
    var n := |a|;
    AsciiBytes(a + ".");
    AsciiBytes(b + ".");
    assert (Encode(a + ".") + x)[n] == '.' as int;
    assert (Encode(b + ".") + y)[n] == b[n] as int;
  }

  lemma PrefixUntilStop(a: string, b: string, x: Bytes, y: Bytes)
    requires IsAscii(a + ".") && IsAscii(b + ".") && '.' !in a && '.' !in b
    requires Encode(a + ".") + x == Encode(b + ".") + y
    ensures a == b && x == y
  {
    if |a| < |b| { StopAt(a, b, x, y); }
    if |b| < |a| { StopAt(b, a, y, x); }
    AsciiBytes(a + ".");
    AsciiBytes(b + ".");
    var c, d := Encode(a + ".") + x, Encode(b + ".") + y;
    forall i | 0 <= i < |a| ensures a[i] == b[i] {
      assert c[i] == (a + ".")[i] as int && d[i] == (b + ".")[i] as int;
    }
    assert c[|a| + 1..] == x && d[|b| + 1..] == y;
  }

  /** The signed bytes determine both the timestamp and the payload. */
  lemma ContentIsInjective(ts: int, payload: Bytes, ts': int, payload': Bytes)
    requires SignedContent(ts, payload) == SignedContent(ts', payload')
    ensures ts == ts' && payload == payload'
  {
    StrIsAscii(ts);
    StrIsAscii(ts');
    PrefixUntilStop(Str(ts), Str(ts'), payload, payload');
    StrInjective(ts, ts');
  }

  /** For a nonzero timestamp, the verifier accepts what the signer wrote exactly within the
      tolerance. */
  lemma SignedIsAcceptedInTime(mac: Mac, secret: string, payload: Bytes, ts: int, tolerance: int, signedAt: int, now: int)
    requires HexValued(mac) && ts != 0
    ensures VerifyRaw(mac, secret, payload, SignRaw(mac, secret, payload, Some(ts), signedAt), tolerance, now) == Valid
            <==> -tolerance <= now - ts <= tolerance
  {
    HeaderVerdict(mac, secret, payload, payload, ts, tolerance, now);
  }

  /** A timestamp of zero is taken for a missing one: the current time is signed instead. */
  lemma ZeroTimestampMeansNow(mac: Mac, secret: string, payload: Bytes, tolerance: int, signedAt: int, now: int)
    requires HexValued(mac)
    ensures SignRaw(mac, secret, payload, Some(0), signedAt) == SignRaw(mac, secret, payload, None, signedAt)
    ensures VerifyRaw(mac, secret, payload, SignRaw(mac, secret, payload, Some(0), signedAt), tolerance, now) == Valid
            <==> -tolerance <= now - signedAt <= tolerance
  {
    HeaderVerdict(mac, secret, payload, payload, signedAt, tolerance, now);
  }

  lemma HeaderVerdict(mac: Mac, secret: string, payload: Bytes, other: Bytes, ts: int, tolerance: int, now: int)
    requires HexValued(mac)
    ensures VerifyRaw(mac, secret, other, Header(ts, mac(secret, SignedContent(ts, payload))), tolerance, now) ==
            if -tolerance <= now - ts <= tolerance && mac(secret, SignedContent(ts, other)) == mac(secret, SignedContent(ts, payload))
            then Valid else Invalid
  {
    var sig := mac(secret, SignedContent(ts, payload));
    assert IsHex(sig) && IsHex(mac(secret, SignedContent(ts, other)));
    assert ',' !in sig;
    ParsePrinted(ts, sig);
  }

  /** As long as the MAC tells two contents apart, a header is accepted in time for the payload
      that it was written for and for no other one. */
  lemma AcceptanceBindsPayload(mac: Mac, secret: string, payload: Bytes, other: Bytes, ts: int, tolerance: int, signedAt: int, now: int)
    requires HexValued(mac) && ts != 0
    requires SignedContent(ts, payload) != SignedContent(ts, other) ==>
               mac(secret, SignedContent(ts, payload)) != mac(secret, SignedContent(ts, other))
    ensures VerifyRaw(mac, secret, other, SignRaw(mac, secret, payload, Some(ts), signedAt), tolerance, now) == Valid
            <==> other == payload && -tolerance <= now - ts <= tolerance
  {
    HeaderVerdict(mac, secret, payload, other, ts, tolerance, now);
    if SignedContent(ts, payload) == SignedContent(ts, other) {
      ContentIsInjective(ts, payload, ts, other);
    }
  }

  // ---------------------------------------------------------------------------------------
  // What an accepted header says

  /** `sep.join(parts)`. */
  function Join(parts: seq<string>, sep: char): string
    requires parts != []
  {
    if |parts| == 1 then parts[0] else parts[0] + [sep] + Join(parts[1..], sep)
  }

  /** Splitting finds the parts of the text, which contain no separator. */
  lemma {:induction false} SplitFindsParts(s: string, sep: char)
    ensures Join(Split(s, sep), sep) == s
    ensures forall p | p in Split(s, sep) :: sep !in p
  {
    if s != "" {
      var rest := Split(s[1..], sep);
      SplitFindsParts(s[1..], sep);
      if s[0] == sep {
        assert ([""] + rest)[1..] == rest;
      } else {
        var parts := [[s[0]] + rest[0]] + rest[1..];
        assert parts[1..] == rest[1..];
        assert rest[0] in rest && forall p | p in rest[1..] :: p in rest;
      }
    }
  }

  /** The part gives a value to the key. */
  predicate Assigns(part: string, key: string) { key + "=" <= part }

  function Given(part: string, key: string): string
    requires Assigns(part, key)
  {
    part[|key| + 1..]
  }

  /** The value that the last part with this key gives it. */
  function LastGiven(parts: seq<string>, key: string): Option<string> {
    if parts == [] then None
    else
      var n := |parts| - 1;
      if Assigns(parts[n], key) then Some(Given(parts[n], key)) else LastGiven(parts[..n], key)
  }

  lemma {:induction false} SplitOnceFinds(s: string, sep: char)
    ensures SplitOnce(s, sep).Some? <==> sep in s
    ensures SplitOnce(s, sep).Some? ==> var (a, b) := SplitOnce(s, sep).value; sep !in a && s == a + [sep] + b
  {
    if s != "" && s[0] != sep { SplitOnceFinds(s[1..], sep); }
  }

  lemma SameKey(k: string, v: string, key: string, value: string)
    requires '=' !in k && '=' !in key && k + ['='] + v == key + ['='] + value
    ensures k == key && v == value
  {
    SplitOnceAt(k, v, '=');
    SplitOnceAt(key, value, '=');
  }

  lemma AssignsWhat(part: string, key: string)
    requires '=' in part && '=' !in key
    ensures SplitOnce(part, '=').Some?
    ensures var (k, v) := SplitOnce(part, '=').value;
            (Assigns(part, key) <==> k == key) && (Assigns(part, key) ==> Given(part, key) == v)
  {
    SplitOnceFinds(part, '=');
    var (k, v) := SplitOnce(part, '=').value;
    if Assigns(part, key) {
      assert part == key + ['='] + Given(part, key);
      SameKey(k, v, key, Given(part, key));
    }
  }

  predicate AllAssign(parts: seq<string>) { forall p | p in parts :: '=' in p }

  /** The dictionary of the parts: it fails exactly on a part without "=", and the last part with
      a key decides its value. */
  lemma {:induction false} PartsTell(parts: seq<string>, key: string)
    requires '=' !in key
    ensures ParseParts(parts).Some? <==> AllAssign(parts)
    ensures ParseParts(parts).Some? ==>
              LastGiven(parts, key) == var m := ParseParts(parts).value; if key in m then Some(m[key]) else None
  {
    if parts != [] {
      var n := |parts| - 1;
      PartsTell(parts[..n], key);
      SplitOnceFinds(parts[n], '=');
      assert AllAssign(parts) <==> AllAssign(parts[..n]) && '=' in parts[n] by {
        assert parts == parts[..n] + [parts[n]];
      }
      if '=' in parts[n] { AssignsWhat(parts[n], key); }
    }
  }

  /** A header of comma-separated assignments is accepted exactly when the last "t" names, in any
      notation that `int` reads, a time within the tolerance and the last "sha256" is the MAC of
      that time and the payload; other keys and earlier assignments do not matter. */
  lemma AcceptanceMeans(mac: Mac, secret: string, payload: Bytes, header: string, tolerance: int, now: int)
    requires HexValued(mac)
    ensures var parts := Split(header, ',');
            VerifyRaw(mac, secret, payload, header, tolerance, now) == Valid <==>
            && AllAssign(parts)
            && LastGiven(parts, "t").Some? && ParseInt(LastGiven(parts, "t").value).Some?
            && var ts := ParseInt(LastGiven(parts, "t").value).value;
               -tolerance <= now - ts <= tolerance && LastGiven(parts, ALGORITHM) == Some(mac(secret, SignedContent(ts, payload)))
  {
    var parts := Split(header, ',');
    assert '=' !in ALGORITHM && '=' !in "t";
    PartsTell(parts, "t");
    PartsTell(parts, ALGORITHM);
    assert HexValued(mac);
    if ParseHeader(header).Some? {
      var expected := mac(secret, SignedContent(ParseHeader(header).value.ts, payload));
      assert IsHex(expected) && |expected| == 64;
    }
  }
}
