/** User names made into Kubernetes object names, without losing anything. */
module PrimaryKey {
  import opened Results

  /** `str::replace` of one character. */
  function Replace(s: string, c: char, code: string): string {
    if s == "" then "" else (if s[0] == c then code else [s[0]]) + Replace(s[1..], c, code)
  }

  /** `encode` of a lower-case text: four replacements, one after the other. */
  function Encode(s: string): string {
    Replace(Replace(Replace(Replace(s, '-', "-s-"), '.', "-d-"), '@', "-at-"), '_', "-u-")
  }

  function Code(c: char): string {
    match c
    case '-' => "-s-"
    case '.' => "-d-"
    case '@' => "-at-"
    case '_' => "-u-"
    case _ => [c]
  }

  /** Each character replaced by its code, in one pass. */
  function Substitute(s: string): string {
    if s == "" then "" else Code(s[0]) + Substitute(s[1..])
  }

  lemma {:induction false} ReplaceConcat(a: string, b: string, c: char, code: string)
    ensures Replace(a + b, c, code) == Replace(a, c, code) + Replace(b, c, code)
  {
    if a == "" {
      assert a + b == b;
    } else {
      assert (a + b)[1..] == a[1..] + b;
      ReplaceConcat(a[1..], b, c, code);
    }
  }

  /** No replacement touches what an earlier one has written, so the four in a row
      are one substitution. The order matters: `-` comes first. */
  lemma {:induction false} EncodeIsSubstitution(s: string)
    ensures Encode(s) == Substitute(s)
  {
    if s != "" {
      var first := [s[0]];
      assert s == first + s[1..];
      var a1, b1 := Replace(first, '-', "-s-"), Replace(s[1..], '-', "-s-");
      ReplaceConcat(first, s[1..], '-', "-s-");
      ReplaceConcat(a1, b1, '.', "-d-");
      var a2, b2 := Replace(a1, '.', "-d-"), Replace(b1, '.', "-d-");
      ReplaceConcat(a2, b2, '@', "-at-");
      var a3, b3 := Replace(a2, '@', "-at-"), Replace(b2, '@', "-at-");
      ReplaceConcat(a3, b3, '_', "-u-");
      EncodeOne(s[0]);
      EncodeIsSubstitution(s[1..]);
    }
  }

  lemma ReplaceOne(x: char, c: char, code: string)
    ensures Replace([x], c, code) == if x == c then code else [x]
  {
  }

  /** A replacement leaves a text alone that does not hold the character. */
  lemma {:induction false} ReplaceNothing(s: string, c: char, code: string)
    requires c !in s
    ensures Replace(s, c, code) == s
  {
    if s != "" {
      ReplaceNothing(s[1..], c, code);
    }
  }

  lemma EncodeOne(c: char)
    ensures Encode([c]) == Code(c)
  {
    ReplaceOne(c, '-', "-s-");
    var r1 := Replace([c], '-', "-s-");
    if c == '.' {
      ReplaceOne(c, '.', "-d-");
    } else {
      ReplaceNothing(r1, '.', "-d-");
    }
    var r2 := Replace(r1, '.', "-d-");
    if c == '@' {
      ReplaceOne(c, '@', "-at-");
    } else {
      ReplaceNothing(r2, '@', "-at-");
    }
    var r3 := Replace(r2, '@', "-at-");
    if c == '_' {
      ReplaceOne(c, '_', "-u-");
    } else {
      ReplaceNothing(r3, '_', "-u-");
    }
  }

  lemma {:induction false} SubstituteConcat(a: string, b: string)
    ensures Substitute(a + b) == Substitute(a) + Substitute(b)
  {
    if a == "" {
      assert a + b == b;
    } else {
      assert (a + b)[1..] == a[1..] + b;
      SubstituteConcat(a[1..], b);
    }
  }

  /** Texts are encoded character by character: four characters have codes, and every
      other one stands for itself. */
  lemma EncodeExactly(a: string, b: string, c: char)
    ensures Encode(a + b) == Encode(a) + Encode(b) && Encode("") == ""
    ensures Encode([c]) == match c
                           case '-' => "-s-"
                           case '.' => "-d-"
                           case '@' => "-at-"
                           case '_' => "-u-"
                           case _ => [c]
  {
    EncodeIsSubstitution(a + b);
    EncodeIsSubstitution(a);
    EncodeIsSubstitution(b);
    SubstituteConcat(a, b);
    EncodeOne(c);
  }

  /** The inverse: read one code after the other. */
  function Decode(s: string): string
    decreases |s|
  {
    if s == "" then ""
    else if s[0] != '-' then [s[0]] + Decode(s[1..])
    else if "-s-" <= s then "-" + Decode(s[3..])
    else if "-d-" <= s then "." + Decode(s[3..])
    else if "-u-" <= s then "_" + Decode(s[3..])
    else if "-at-" <= s then "@" + Decode(s[4..])
    else ""
  }

  lemma DecodeFirst(c: char, rest: string)
    ensures Decode(Code(c) + rest) == [c] + Decode(rest)
  {
    var s := Code(c) + rest;
    assert s[|Code(c)|..] == rest;
    match c
    case '-' => assert s[..3] == "-s-";
    case '.' => assert s[..3] == "-d-" && s[1] != 's';
    case '_' => assert s[..3] == "-u-" && s[1] != 's' && s[1] != 'd';
    case '@' => assert s[..4] == "-at-" && s[1] != 's' && s[1] != 'd' && s[1] != 'u';
    case _ =>
  }

  /** What was encoded can be read back. */
  lemma {:induction false} DecodeEncode(s: string)
    ensures Decode(Encode(s)) == s
  {
    EncodeIsSubstitution(s);
    DecodeSubstitute(s);
  }

  lemma {:induction false} DecodeSubstitute(s: string)
    ensures Decode(Substitute(s)) == s
  {
    if s != "" {
      DecodeSubstitute(s[1..]);
      DecodeFirst(s[0], Substitute(s[1..]));
    }
  }

  /** A payload; `email` is absent when it does not parse as an address. */
  datatype Payload = Payload(name: string, email: Option<string>, id: Option<string>)

  /** Which of the three a user is known by, in lower case. */
  datatype Identity = ByName(name: string) | ByEmail(email: string) | ById(id: string)

  function IdentityOf(lower: string -> string, p: Payload): Option<Identity> {
    if p.name != "" then Some(ByName(lower(p.name)))
    else if p.email.Some? then Some(ByEmail(lower(p.email.value)))
    else if p.id.Some? then Some(ById(lower(p.id.value)))
    else None
  }

  /** `primary_key`; `lower` stands for the conversion to lower case. */
  function Key(lower: string -> string, p: Payload): Option<string> {
    if p.name != "" then Some("name-" + Encode(lower(p.name)))
    else if p.email.Some? then Some("email-" + Encode(lower(p.email.value)))
    else if p.id.Some? then Some("id-" + Encode(lower(p.id.value)))
    else None
  }

  /** The name comes first, then the address, then the id, each after its own prefix. */
  lemma KeyForms(lower: string -> string, p: Payload)
    ensures p.name != "" ==> Key(lower, p) == Some("name-" + Encode(lower(p.name)))
    ensures p.name == "" && p.email.Some? ==> Key(lower, p) == Some("email-" + Encode(lower(p.email.value)))
    ensures p.name == "" && p.email.None? && p.id.Some? ==> Key(lower, p) == Some("id-" + Encode(lower(p.id.value)))
    ensures p.name == "" && p.email.None? && p.id.None? ==> Key(lower, p).None?
  {
  }

  /** Reads the identity back from a key. */
  function Identify(key: string): Option<Identity> {
    if "name-" <= key then Some(ByName(Decode(key[5..])))
    else if "email-" <= key then Some(ByEmail(Decode(key[6..])))
    else if "id-" <= key then Some(ById(Decode(key[3..])))
    else None
  }

  lemma KeyIdentifies(lower: string -> string, p: Payload)
    requires Key(lower, p).Some?
    ensures Identify(Key(lower, p).value) == IdentityOf(lower, p)
  {
    var key := Key(lower, p).value;
    if p.name != "" {
      assert key[5..] == Encode(lower(p.name)) && key[..5] == "name-";
      DecodeEncode(lower(p.name));
    } else if p.email.Some? {
      assert key[6..] == Encode(lower(p.email.value)) && key[..6] == "email-" && key[0] != 'n';
      DecodeEncode(lower(p.email.value));
    } else {
      assert key[3..] == Encode(lower(p.id.value)) && key[..3] == "id-" && key[0] != 'n' && key[0] != 'e';
      DecodeEncode(lower(p.id.value));
    }
  }

  /** A payload has a key exactly when it identifies somebody, and two payloads have
      the same key exactly when they identify the same user in the same way. */
  lemma KeysAreUnique(lower: string -> string, p: Payload, q: Payload)
    ensures Key(lower, p).Some? <==> IdentityOf(lower, p).Some?
    ensures Key(lower, p).Some? && Key(lower, q).Some? ==> (Key(lower, p) == Key(lower, q) <==> IdentityOf(lower, p) == IdentityOf(lower, q))
  {
    if Key(lower, p).Some? && Key(lower, q).Some? {
      KeyIdentifies(lower, p);
      KeyIdentifies(lower, q);
    }
  }
}
