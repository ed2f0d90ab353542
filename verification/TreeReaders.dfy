/** What the readers of the content tree take from any octets (client/src/cid.rs, client/src/dagnode.rs), said with
    the numbers of the formats: varints, fields and the messages made of them, identifiers and their text. */
module TreeReaders {
  import opened Arith
  import opened Base
  import opened Utf8
  import opened Cid
  import opened DagPb
  import opened Store
  import opened TreeWire
  import opened Walker

  // ----- varints -----

  /** What the first `k` octets carry, seven bits each. */
  function Sevens(b: Octets, k: nat): nat
    requires k <= |b|
  {
    if k == 0 then 0 else Sevens(b, k - 1) + b[k - 1] % 128 * Pow128(k - 1)
  }

  /** The first `k` octets say that more follow. */
  ghost predicate Continued(b: Octets, k: nat)
    requires k <= |b|
  {
    forall i :: 0 <= i < k ==> b[i] >= 128
  }

  /** A varint ends at the first octet below 128, which is one of the first ten; its value is taken in 64 bits.
      Octets that end before are truncated, ten that go on are too long. */
  lemma {:induction false} VarintIs(b: Octets, k: nat)
    ensures 0 < k <= Min(10, |b|) && Continued(b, k - 1) && b[k - 1] < 128 ==>
              Varint.Read(b) == Ok(Varint.Number(Sevens(b, k) % 0x1_0000_0000_0000_0000, b[k..]))
    ensures |b| < 10 && Continued(b, |b|) ==> Varint.Read(b) == Err(Varint.Truncated)
    ensures |b| >= 10 && Continued(b, 10) ==> Varint.Read(b) == Err(Varint.TooLong)
  {
    assert b[0..] == b && Pow2(0) == 1;
    if 0 < k <= Min(10, |b|) && Continued(b, k - 1) && b[k - 1] < 128 {
      ReadEnds(b, 0, k);
    }
    if Continued(b, Min(10, |b|)) {
      ReadRefused(b, 0);
    }
  }

  lemma {:induction false} SevensFit(b: Octets, k: nat)
    requires k <= |b|
    ensures Sevens(b, k) < Pow2(7 * k) == Pow128(k)
  {
    if k > 0 {
      SevensFit(b, k - 1);
      Pow2Values();
      Pow2Sum(7, 7 * (k - 1));
      assert 7 * k == 7 + 7 * (k - 1);
      BelowProduct(b[k - 1] % 128, Pow128(k - 1), 128);
    }
  }

  lemma {:induction false} WrapsLate(v: nat, y: nat, m: nat)
    requires m > 0 && v + y % m < m
    ensures (v + y) % m == v + y % m
  {
    DivMod(y, m);
    DivModUnique(v + y, m, y / m, v + y % m);
  }

  /** One more octet read: what is carried so far, and what the octet adds. */
  lemma {:induction false} OctetRead(b: Octets, i: nat)
    requires i < |b| && i < 10
    ensures var x := b[i] % 128;
            && Sevens(b, i) < Pow2(7 * i) && Sevens(b, i) < U64_LIMIT && b[i..][0] == b[i] && b[i..][1..] == b[i + 1..]
            && Sevens(b, i) + Varint.ShiftLeft(x, 7 * i) == Sevens(b, i + 1) % U64_LIMIT
            && (i < 9 ==> Sevens(b, i) + Varint.ShiftLeft(x, 7 * i) == Sevens(b, i + 1))
  {
    var x := b[i] % 128;
    SevensFit(b, i);
    Pow2Values();
    Pow2Below(7 * i, 64);
    Varint.ShiftedSum(Sevens(b, i), x, 7 * i);
    WrapsLate(Sevens(b, i), x * Pow2(7 * i), U64_LIMIT);
  }

  lemma {:induction false} ReadEnds(b: Octets, i: nat, k: nat)
    requires i < k <= Min(10, |b|) && Continued(b, k - 1) && b[k - 1] < 128
    ensures Sevens(b, i) < Pow2(7 * i) && Sevens(b, i) < U64_LIMIT
    ensures Varint.ReadFrom(b[i..], Sevens(b, i), 7 * i) == Ok(Varint.Number(Sevens(b, k) % U64_LIMIT, b[k..]))
    decreases k - i
  {
    OctetRead(b, i);
    hide Sevens, Pow2, Varint.ShiftLeft;
    if i < k - 1 {
      ReadEnds(b, i + 1, k);
    }
  }

  lemma {:induction false} ReadRefused(b: Octets, i: nat)
    requires i <= Min(9, |b|) && Continued(b, Min(10, |b|))
    ensures Sevens(b, i) < Pow2(7 * i) && Sevens(b, i) < U64_LIMIT
    ensures Varint.ReadFrom(b[i..], Sevens(b, i), 7 * i)
         == Err(if |b| < 10 then Varint.Truncated else Varint.TooLong)
    decreases 10 - i
  {
    if i < |b| {
      OctetRead(b, i);
      hide Sevens, Pow2, Varint.ShiftLeft;
      if i < 9 {
        ReadRefused(b, i + 1);
      }
    } else {
      SevensFit(b, i);
      Pow2Values();
      Pow2Below(7 * i, 64);
    }
  }

  // ----- fields -----

  /** A field stands at the front of the octets, `rest` after it: its number and its wire type in the first varint;
      type 0 a varint, type 2 a length and that many octets, types 1 and 5 eight and four octets passed over. */
  ghost predicate FieldAt(b: Octets, t: Token, rest: Octets) {
    match Varint.Read(b)
    case Ok(Number(key, body)) => key / 8 == t.field && BodyAt(body, key % 8, t.payload, rest)
    case Err(_) => false
  }

  ghost predicate BodyAt(b: Octets, wire: nat, payload: Payload, rest: Octets) {
    match payload
    case Num(n) => wire == 0 && Varint.Read(b) == Ok(Varint.Number(n, rest))
    case Delimited(bytes) =>
      && wire == 2 && Varint.Read(b).Ok?
      && Varint.Read(b).value.value == |bytes| && Varint.Read(b).value.rest == bytes + rest
    case Fixed => (wire == 1 && |b| >= 8 && b[8..] == rest) || (wire == 5 && |b| >= 4 && b[4..] == rest)
  }

  lemma {:induction false} FieldIff(b: Octets, t: Token, rest: Octets)
    ensures NextField(b) == Some(Next(t, rest)) <==> FieldAt(b, t, rest)
  {
    hide Varint.Read;
    match Varint.Read(b)
    case Ok(Number(key, body)) => BodyIff(key / 8, key % 8, body, t, rest);
    case Err(_) =>
  }

  lemma {:induction false} BodyIff(field: nat, wire: nat, b: Octets, t: Token, rest: Octets)
    ensures FieldBody(field, wire, b) == Some(Next(t, rest)) <==> field == t.field && BodyAt(b, wire, t.payload, rest)
  {
    hide Varint.Read;
    match Varint.Read(b)
    case Ok(Number(length, more)) =>
      if length <= |more| {
        assert more == more[..length] + more[length..];
      }
      if t.payload.Delimited? && more == t.payload.bytes + rest {
        assert more[..|t.payload.bytes|] == t.payload.bytes && more[|t.payload.bytes|..] == rest;
      }
    case Err(_) =>
  }

  /** The octets are these fields, one after another. */
  ghost predicate Spells(b: Octets, ts: seq<Token>)
    decreases |ts|
  {
    if |ts| == 0 then b == [] else exists rest :: FieldAt(b, ts[0], rest) && Spells(rest, ts[1..])
  }

  lemma {:induction false} TokensIff(b: Octets, ts: seq<Token>)
    ensures Tokens(b) == Some(ts) <==> Spells(b, ts)
    decreases |b|
  {
    hide NextField, FieldAt;
    if |b| > 0 && |ts| > 0 {
      match NextField(b)
      case Some(Next(token, rest)) =>
        FieldIff(b, token, rest);
        TokensIff(rest, ts[1..]);
        assert [ts[0]] + ts[1..] == ts;
        forall other | FieldAt(b, ts[0], other) ensures token == ts[0] && other == rest {
          FieldIff(b, ts[0], other);
        }
      case None =>
        forall other ensures !FieldAt(b, ts[0], other) {
          FieldIff(b, ts[0], other);
        }
    } else if |b| == 0 && |ts| > 0 {
      forall other ensures !FieldAt(b, ts[0], other) {
        FieldIff(b, ts[0], other);
        NothingRead(b);
      }
    }
  }

  lemma {:induction false} NothingRead(b: Octets)
    requires |b| == 0
    ensures NextField(b) == None
  {
  }

  // ----- messages -----

  /** The octets of the last field of this number that has octets. */
  function LastOctets(ts: seq<Token>, field: nat, otherwise: Octets): Octets
  {
    if |ts| == 0 then otherwise
    else
      match ts[|ts| - 1]
      case Token(f, Delimited(bytes)) =>
        if f == field then bytes else LastOctets(ts[..|ts| - 1], field, otherwise)
      case _ => LastOctets(ts[..|ts| - 1], field, otherwise)
  }

  /** The number of the last field of this number that has one. */
  function LastNumber(ts: seq<Token>, field: nat, otherwise: u64): u64
  {
    if |ts| == 0 then otherwise
    else
      match ts[|ts| - 1]
      case Token(f, Num(n)) => if f == field then n else LastNumber(ts[..|ts| - 1], field, otherwise)
      case _ => LastNumber(ts[..|ts| - 1], field, otherwise)
  }

  /** The octets of all fields of number 2, in order. */
  function Regions(ts: seq<Token>): seq<Octets>
  {
    if |ts| == 0 then []
    else
      match ts[0]
      case Token(2, Delimited(bytes)) => [bytes] + Regions(ts[1..])
      case _ => Regions(ts[1..])
  }

  lemma {:induction false} LastFromFront(ts: seq<Token>, field: nat, bytes: Octets, n: u64)
    requires |ts| > 0
    ensures LastOctets(ts, field, bytes) == LastOctets(ts[1..], field, LastOctets([ts[0]], field, bytes))
    ensures LastNumber(ts, field, n) == LastNumber(ts[1..], field, LastNumber([ts[0]], field, n))
  {
    var front := ts[..|ts| - 1];
    if |ts| > 1 {
      LastFromFront(front, field, bytes, n);
      assert front[1..] == ts[1..][..|ts| - 2] && front[0] == ts[0];
    } else {
      assert ts == [ts[0]] && ts[1..] == [];
    }
  }

  lemma {:induction false} LastOfOne(t: Token, field: nat, bytes: Octets, n: u64)
    ensures LastOctets([t], field, bytes) == (match t.payload
                                              case Delimited(x) => if t.field == field then x else bytes
                                              case _ => bytes)
    ensures LastNumber([t], field, n) == (match t.payload
                                          case Num(x) => if t.field == field then x else n
                                          case _ => n)
  {
    assert [t][..0] == [];
  }

  /** Every name there is text. */
  ghost predicate NamesAreText(ts: seq<Token>) {
    forall i :: 0 <= i < |ts| && ts[i].field == 2 && ts[i].payload.Delimited? ==> ValidUtf8(ts[i].payload.bytes)
  }

  /** A link: identifier octets in field 1, a name in field 2, a size in field 3, the last of each; other fields are
      passed over, and every name must be UTF-8, not only the last. */
  lemma {:induction false} LinkIff(region: Octets, link: PbLink)
    ensures ParseLink(region) == Some(link)
       <==> exists ts :: && Spells(region, ts) && NamesAreText(ts)
                         && link.hash == LastOctets(ts, 1, []) && link.name == LastOctets(ts, 2, [])
                         && link.tsize == LastNumber(ts, 3, 0)
  {
    hide Tokens, Spells, LinkFold, LastOctets, LastNumber, NamesAreText, EMPTY_LINK;
    if Tokens(region).Some? {
      LinkFoldIff(EMPTY_LINK, Tokens(region).value, link);
      EmptyLink();
      TokensIff(region, Tokens(region).value);
    }
    forall ts | Spells(region, ts) ensures Tokens(region) == Some(ts) {
      TokensIff(region, ts);
    }
  }

  lemma {:induction false} EmptyLink()
    ensures EMPTY_LINK == PbLink([], [], 0)
  {
  }

  lemma {:induction false} LinkFoldIff(link: PbLink, ts: seq<Token>, r: PbLink)
    ensures LinkFold(link, ts) == Some(r)
       <==> && NamesAreText(ts) && r.hash == LastOctets(ts, 1, link.hash) && r.name == LastOctets(ts, 2, link.name)
            && r.tsize == LastNumber(ts, 3, link.tsize)
    decreases |ts|
  {
    hide LastOctets, LastNumber, ValidUtf8;
    if |ts| == 0 {
      NoneLeft(ts, 1, link.hash, 0);
      NoneLeft(ts, 2, link.name, 0);
      NoneLeft(ts, 3, [], link.tsize);
    } else {
      LastFromFront(ts, 1, link.hash, 0);
      LastFromFront(ts, 2, link.name, 0);
      LastFromFront(ts, 3, [], link.tsize);
      LastOfOne(ts[0], 1, link.hash, 0);
      LastOfOne(ts[0], 2, link.name, 0);
      LastOfOne(ts[0], 3, [], link.tsize);
      NamesFromFront(ts);
      hide NamesAreText;
      match LinkField(link, ts[0])
      case Some(next) => LinkFoldIff(next, ts[1..], r);
      case None =>
    }
  }

  lemma {:induction false} NoneLeft(ts: seq<Token>, field: nat, bytes: Octets, n: u64)
    requires |ts| == 0
    ensures LastOctets(ts, field, bytes) == bytes && LastNumber(ts, field, n) == n
  {
  }

  lemma {:induction false} NamesFromFront(ts: seq<Token>)
    requires |ts| > 0
    ensures NamesAreText(ts)
       <==> && (ts[0].field == 2 && ts[0].payload.Delimited? ==> ValidUtf8(ts[0].payload.bytes))
            && NamesAreText(ts[1..])
  {
    hide ValidUtf8;
    if NamesAreText(ts[1..]) {
      forall i | 0 < i < |ts| ensures ts[i] == ts[1..][i - 1] {
      }
    }
  }

  /** The links that these octets spell, one each. */
  ghost predicate LinksOf(regions: seq<Octets>, links: seq<PbLink>) {
    |regions| == |links| && forall i :: 0 <= i < |regions| ==> ParseLink(regions[i]) == Some(links[i])
  }

  lemma {:induction false} OneMoreLink(first: Octets, regions: seq<Octets>, links: seq<PbLink>)
    ensures LinksOf([first] + regions, links)
       <==> |links| > 0 && ParseLink(first) == Some(links[0]) && LinksOf(regions, links[1..])
  {
    hide ParseLink;
    if LinksOf([first] + regions, links) {
      forall i | 0 <= i < |regions| ensures ParseLink(regions[i]) == Some(links[1..][i]) {
        assert regions[i] == ([first] + regions)[i + 1];
      }
      assert ([first] + regions)[0] == first;
    }
  }

  /** A node: data in field 1, the last there is, and one link for every field 2, in order; other fields are passed
      over. */
  lemma {:induction false} NodeIff(bytes: Octets, node: PbNode)
    ensures ParseNode(bytes) == Some(node)
       <==> exists ts :: && Spells(bytes, ts) && node.data == LastOctets(ts, 1, [])
                         && LinksOf(Regions(ts), node.links)
  {
    hide Tokens, Spells, NodeFold, LastOctets, Regions, ParseLink;
    if Tokens(bytes).Some? {
      NodeFoldIff(PbNode([], []), Tokens(bytes).value, node);
      TokensIff(bytes, Tokens(bytes).value);
    }
    forall ts | Spells(bytes, ts) ensures Tokens(bytes) == Some(ts) {
      TokensIff(bytes, ts);
    }
  }

  lemma {:induction false} NodeFoldIff(node: PbNode, ts: seq<Token>, r: PbNode)
    ensures NodeFold(node, ts) == Some(r)
       <==> && r.data == LastOctets(ts, 1, node.data)
            && node.links <= r.links && LinksOf(Regions(ts), r.links[|node.links|..])
    decreases |ts|
  {
    hide LastOctets, LinksOf, ParseLink;
    var n := |node.links|;
    if |ts| == 0 {
      NoneLeft(ts, 1, node.data, 0);
      NoLinks(r.links, node.links);
    } else {
      LastFromFront(ts, 1, node.data, 0);
      LastOfOne(ts[0], 1, node.data, 0);
      if ts[0].field == 2 && ts[0].payload.Delimited? {
        RegionsOf(ts);
        hide Regions;
        OneMoreLink(ts[0].payload.bytes, Regions(ts[1..]), if n <= |r.links| then r.links[n..] else []);
        match ParseLink(ts[0].payload.bytes)
        case Some(link) =>
          NodeFoldIff(node.(links := node.links + [link]), ts[1..], r);
          ThenOne(node.links, link, r.links);
        case None =>
      } else {
        NodeFoldIff(NodeField(node, ts[0]).value, ts[1..], r);
      }
    }
  }

  lemma {:induction false} RegionsOf(ts: seq<Token>)
    requires |ts| > 0 && ts[0].field == 2 && ts[0].payload.Delimited?
    ensures Regions(ts) == [ts[0].payload.bytes] + Regions(ts[1..])
  {
  }

  lemma {:induction false} NoLinks(links: seq<PbLink>, before: seq<PbLink>)
    ensures before <= links && LinksOf([], links[|before|..]) <==> links == before
  {
  }

  lemma {:induction false} ThenOne(before: seq<PbLink>, link: PbLink, links: seq<PbLink>)
    ensures before + [link] <= links <==> before <= links && |links| > |before| && links[|before|] == link
    ensures |links| > |before| ==> links[|before|..][1..] == links[|before + [link]|..]
  {
  }

  /** A UnixFS message: its type in field 1, a file's unless it says otherwise, its payload in field 2, the last of
      each; everything else is passed over, and no octets at all are an empty directory. */
  lemma {:induction false} UnixfsIff(data: Octets, u: Unixfs)
    ensures ParseUnixfs(data) == Some(u)
       <==> if data == [] then u == Unixfs(1, [])
            else exists ts :: && Spells(data, ts) && u.kind == LastNumber(ts, 1, 2)
                              && u.payload == LastOctets(ts, 2, [])
  {
    hide Tokens, Spells, UnixfsFold, LastOctets, LastNumber;
    if Tokens(data).Some? {
      UnixfsFoldIs(Unixfs(UNIXFS_FILE, []), Tokens(data).value);
      TokensIff(data, Tokens(data).value);
    }
    forall ts | Spells(data, ts) ensures Tokens(data) == Some(ts) {
      TokensIff(data, ts);
    }
  }

  lemma {:induction false} UnixfsFoldIs(u: Unixfs, ts: seq<Token>)
    ensures UnixfsFold(u, ts) == Unixfs(LastNumber(ts, 1, u.kind), LastOctets(ts, 2, u.payload))
    decreases |ts|
  {
    hide LastOctets, LastNumber;
    if |ts| == 0 {
      NoneLeft(ts, 1, [], u.kind);
      NoneLeft(ts, 2, u.payload, 0);
    } else {
      LastFromFront(ts, 1, [], u.kind);
      LastFromFront(ts, 2, u.payload, 0);
      LastOfOne(ts[0], 1, [], u.kind);
      LastOfOne(ts[0], 2, u.payload, 0);
      UnixfsFoldIs(UnixfsField(u, ts[0]), ts[1..]);
    }
  }

  // ----- identifiers -----

  /** Varints of these values, one after another, and then the rest. */
  ghost predicate Numbers(b: Octets, values: seq<u64>, rest: Octets)
    decreases |values|
  {
    if |values| == 0 then b == rest
    else
      match Varint.Read(b)
      case Ok(Number(n, more)) => n == values[0] && Numbers(more, values[1..], rest)
      case Err(_) => false
  }

  /** An identifier is version 1, raw or dag-pb, sha2-256, a length of 32, each a varint, and 32 octets to the
      end; anything else is refused. */
  lemma {:induction false} IdentifierIff(b: Octets, c: Cid)
    ensures FromBytes(b) == Ok(c)
       <==> && c.version == 1 && (c.codec == 0x55 || c.codec == 0x70)
            && Numbers(b, [1, c.codec, 0x12, 0x20], c.digest)
  {
    hide Varint.Read;
    NumbersFour(b, 1, c.codec, 0x12, 0x20, c.digest);
  }

  lemma {:induction false} NumbersFour(b: Octets, v: u64, w: u64, x: u64, y: u64, rest: Octets)
    ensures Numbers(b, [v, w, x, y], rest)
       <==> match Varint.Read(b)
            case Err(_) => false
            case Ok(Number(n1, b1)) =>
              n1 == v && match Varint.Read(b1)
                         case Err(_) => false
                         case Ok(Number(n2, b2)) =>
                           n2 == w && match Varint.Read(b2)
                                      case Err(_) => false
                                      case Ok(Number(n3, b3)) =>
                                        n3 == x && match Varint.Read(b3)
                                                   case Err(_) => false
                                                   case Ok(Number(n4, b4)) => n4 == y && b4 == rest
  {
    hide Varint.Read, Numbers;
    assert [v] + [w, x, y] == [v, w, x, y] && [w] + [x, y] == [w, x, y] && [x] + [y] == [x, y] && [y] + [] == [y];
    NumbersThen(b, v, [w, x, y], rest);
    if Varint.Read(b).Ok? {
      var b1 := Varint.Read(b).value.rest;
      NumbersThen(b1, w, [x, y], rest);
      if Varint.Read(b1).Ok? {
        var b2 := Varint.Read(b1).value.rest;
        NumbersThen(b2, x, [y], rest);
        if Varint.Read(b2).Ok? {
          var b3 := Varint.Read(b2).value.rest;
          NumbersThen(b3, y, [], rest);
          if Varint.Read(b3).Ok? {
            NumbersThen(Varint.Read(b3).value.rest, y, [], rest);
          }
        }
      }
    }
  }

  lemma {:induction false} NumbersThen(b: Octets, n: u64, others: seq<u64>, rest: Octets)
    ensures Numbers(b, [n] + others, rest)
       <==> && Varint.Read(b).Ok? && Varint.Read(b).value.value == n
            && Numbers(Varint.Read(b).value.rest, others, rest)
    ensures Numbers(b, [], rest) <==> b == rest
  {
    hide Varint.Read;
    assert ([n] + others)[1..] == others;
  }

  /** The value of a letter of the base32 alphabet: `a` to `z` and then `2` to `7`. */
  function LetterValue(c: byte): Option<nat> {
    if 0x61 <= c <= 0x7a then Some(c - 0x61)
    else if 0x32 <= c <= 0x37 then Some(c - 0x32 + 26)
    else None
  }

  /** Base32 text decodes exactly when every character is of the alphabet, to as many whole octets as five bits
      a character make up, bit for bit. */
  lemma {:induction false} Base32Is(text: Octets)
    ensures Base32.Decode(text).Some? <==> forall i :: 0 <= i < |text| ==> LetterValue(text[i]).Some?
    ensures Base32.Decode(text).Some? ==>
              && |Base32.Decode(text).value| == 5 * |text| / 8
              && forall k :: 0 <= k < 8 * (5 * |text| / 8) ==>
                               LetterValue(text[k / 5]).Some?
                               && BitAt(Base32.Decode(text).value, k)
                               == LetterValue(text[k / 5]).value / Pow2(4 - k % 5) % 2
  {
    LettersIff(text);
    hide LetterValue, BitAt, Pow2, Base32.AllBits, Base32.AllQuintetBits, Base32.Octetise;
    if Base32.Decode(text).Some? {
      var groups := Base32.Indices(text).value;
      var bits, bytes := Base32.AllQuintetBits(groups), Base32.Decode(text).value;
      Base32.OctetiseSplits(bits);
      forall k | 0 <= k < 8 * (5 * |text| / 8)
        ensures LetterValue(text[k / 5]).Some?
        ensures BitAt(bytes, k) == LetterValue(text[k / 5]).value / Pow2(4 - k % 5) % 2
      {
        AllBitsAt(bytes, k);
        QuintetBitAt(groups, k);
      }
    }
  }

  lemma {:induction false} LettersIff(text: Octets)
    ensures Base32.Indices(text).Some? <==> forall i :: 0 <= i < |text| ==> LetterValue(text[i]).Some?
    ensures Base32.Indices(text).Some? ==>
              forall i :: 0 <= i < |text| ==> LetterValue(text[i]) == Some(Base32.Indices(text).value[i])
  {
    if |text| > 0 {
      var rest := text[1..];
      LettersIff(rest);
      forall i | 0 < i < |text| ensures text[i] == rest[i - 1] {
      }
    }
  }

  lemma {:induction false} QuintetBitAt(groups: seq<Base32.quintet>, k: nat)
    requires k < 5 * |groups|
    ensures Base32.AllQuintetBits(groups)[k] == groups[k / 5] / Pow2(4 - k % 5) % 2
  {
    hide Base32.BitsOf, Pow2;
    if k < 5 {
      BitOf(groups[0], 5, k);
    } else {
      QuintetBitAt(groups[1..], k - 5);
      assert groups[k / 5] == groups[1..][(k - 5) / 5];
    }
  }

  /** The text of an identifier is a `b` and base32 after it. */
  lemma {:induction false} TextIff(text: Octets, c: Cid)
    ensures FromText(text) == Ok(c)
       <==> && |text| > 0 && text[0] == 0x62 && Base32.Decode(text[1..]).Some?
            && FromBytes(Base32.Decode(text[1..]).value) == Ok(c)
  {
    hide FromBytes, Base32.Decode;
  }

  // ----- nodes -----

  /** Entries that say where the links lead, under their names and sizes. */
  ghost predicate Resolved(links: seq<PbLink>, entries: seq<DirLink>) {
    |entries| == |links|
    && forall i :: 0 <= i < |links| ==> && FromBytes(links[i].hash) == Ok(entries[i].cid)
                                        && entries[i].name == links[i].name && entries[i].tsize == links[i].tsize
  }

  /** The node that octets and their UnixFS message stand for: a directory of no more links than the bound, or a
      file. */
  ghost predicate Means(pb: PbNode, u: Unixfs, limits: WalkLimits, node: Node) {
    match node
    case Raw(_) => false
    case Directory(entries) => u.kind == 1 && |pb.links| <= limits.maxLinksPerNode && Resolved(pb.links, entries)
    case File(data, children) =>
      && u.kind == 2 && data == u.payload && |children| == |pb.links|
      && forall i :: 0 <= i < |children| ==> FromBytes(pb.links[i].hash) == Ok(children[i])
  }

  /** What an identifier reads as, on any store: its octets under the raw codec; under dag-pb the node they spell. */
  lemma {:induction false} ReadNodeIff(sha: Hash, disk: Disk, cid: Cid, limits: WalkLimits, node: Node)
    ensures ReadNode(sha, disk, cid, limits) == Ok(node)
       <==> && cid in disk && |disk[cid]| <= 1_048_576 && sha(disk[cid]) == cid.digest
            && (|| (cid.codec == 0x55 && node == Raw(disk[cid]))
                || (cid.codec == 0x70
                    && exists pb, u :: && ParseNode(disk[cid]) == Some(pb) && ParseUnixfs(pb.data) == Some(u)
                                       && Means(pb, u, limits, node)))
  {
    hide ParseNode, ParseUnixfs, FromBytes, Means, DirLinks, Classify;
    if cid in disk && cid.codec == 0x70 && ParseNode(disk[cid]).Some? {
      var pb := ParseNode(disk[cid]).value;
      if ParseUnixfs(pb.data).Some? {
        ClassifyIff(pb, ParseUnixfs(pb.data).value, limits, node);
      }
    }
  }

  lemma {:induction false} ClassifyIff(pb: PbNode, u: Unixfs, limits: WalkLimits, node: Node)
    ensures Classify(u.kind, u.payload, pb.links, limits) == Ok(node) <==> Means(pb, u, limits, node)
  {
    hide DirLinks, FromBytes, Resolved;
    if DirLinks(pb.links).Ok? {
      ResolvedIff(pb.links, DirLinks(pb.links).value);
    }
    if node.Directory? {
      ResolvedIff(pb.links, node.entries);
    }
    if node.File? {
      ChildrenIff(pb.links, node.children);
    }
  }

  lemma {:induction false} ResolvedIff(links: seq<PbLink>, entries: seq<DirLink>)
    ensures DirLinks(links) == Ok(entries) <==> Resolved(links, entries)
  {
    hide FromBytes;
    if |links| > 0 && |entries| > 0 {
      ResolvedIff(links[1..], entries[1..]);
      assert entries == [entries[0]] + entries[1..];
      if Resolved(links, entries) {
        forall i | 0 <= i < |links| - 1 ensures links[1..][i] == links[i + 1] && entries[1..][i] == entries[i + 1] {
        }
      }
    }
  }

  lemma {:induction false} ChildrenIff(links: seq<PbLink>, children: seq<Cid>)
    ensures DirLinks(links).Ok? && Targets(DirLinks(links).value) == children
       <==> |children| == |links| && forall i :: 0 <= i < |children| ==> FromBytes(links[i].hash) == Ok(children[i])
  {
    hide FromBytes, DirLinks;
    if DirLinks(links).Ok? {
      ResolvedIff(links, DirLinks(links).value);
    }
    if |children| == |links| && forall i :: 0 <= i < |children| ==> FromBytes(links[i].hash) == Ok(children[i]) {
      var entries := seq(|links|, i requires 0 <= i < |links| => DirLink(children[i], links[i].name, links[i].tsize));
      ResolvedIff(links, entries);
    }
  }

  /** Why octets held under dag-pb do not read: a link that is no identifier, and for everything else the bound. */
  lemma {:induction false} NodeRefusal(sha: Hash, disk: Disk, cid: Cid, limits: WalkLimits)
    requires cid in disk && |disk[cid]| <= 1_048_576 && sha(disk[cid]) == cid.digest && cid.codec == 0x70
    ensures ReadNode(sha, disk, cid, limits).Err? ==>
              ReadNode(sha, disk, cid, limits)
              == Err(if Structured(disk[cid], limits) then BadLink else BoundExceeded)
  {
    hide ParseNode, ParseUnixfs, FromBytes, DirLinks;
    if ParseNode(disk[cid]).Some? {
      LinkRefusal(ParseNode(disk[cid]).value.links);
    }
  }

  lemma {:induction false} LinkRefusal(links: seq<PbLink>)
    ensures DirLinks(links).Err? ==> DirLinks(links) == Err(BadLink)
  {
    hide FromBytes;
    if |links| > 0 {
      LinkRefusal(links[1..]);
    }
  }

  ghost predicate Structured(bytes: Octets, limits: WalkLimits) {
    match ParseNode(bytes)
    case None => false
    case Some(pb) =>
      match ParseUnixfs(pb.data)
      case None => false
      case Some(u) => u.kind == 2 || (u.kind == 1 && |pb.links| <= limits.maxLinksPerNode)
  }
}
