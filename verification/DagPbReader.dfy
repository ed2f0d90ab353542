/** The protobuf readers as the source runs them: a position moved through the octets, field by
    field, proved against the functions of module DagPb. */
module DagPbReader {
  import opened Base
  import opened Utf8
  import Varint
  import opened DagPb

  // ----- folding over what is left of a message -----

  function LinkRest(link: PbLink, b: Octets): Option<PbLink> {
    match Tokens(b)
    case None => None
    case Some(ts) => LinkFold(link, ts)
  }

  function NodeRest(node: PbNode, b: Octets): Option<PbNode> {
    match Tokens(b)
    case None => None
    case Some(ts) => NodeFold(node, ts)
  }

  function UnixfsRest(u: Unixfs, b: Octets): Option<Unixfs> {
    match Tokens(b)
    case None => None
    case Some(ts) => Some(UnixfsFold(u, ts))
  }

  lemma {:induction false} TokensHead(b: Octets)
    requires |b| > 0
    ensures Tokens(b) == match NextField(b)
                         case None => None
                         case Some(next) =>
                           match Tokens(next.rest)
                           case None => None
                           case Some(ts) => Some([next.token] + ts)
  {
  }

  lemma {:induction false} LinkRestStep(link: PbLink, b: Octets)
    requires |b| > 0
    ensures LinkRest(link, b) == match NextField(b)
                                 case None => None
                                 case Some(next) =>
                                   match LinkField(link, next.token)
                                   case None => None
                                   case Some(link') => LinkRest(link', next.rest)
  {
    TokensHead(b);
    if NextField(b).Some? && Tokens(NextField(b).value.rest).Some? {
      var t, ts := NextField(b).value.token, Tokens(NextField(b).value.rest).value;
      assert ([t] + ts)[1..] == ts;
    }
  }

  lemma {:induction false} NodeRestStep(node: PbNode, b: Octets)
    requires |b| > 0
    ensures NodeRest(node, b) == match NextField(b)
                                 case None => None
                                 case Some(next) =>
                                   match NodeField(node, next.token)
                                   case None => None
                                   case Some(node') => NodeRest(node', next.rest)
  {
    TokensHead(b);
    if NextField(b).Some? && Tokens(NextField(b).value.rest).Some? {
      var t, ts := NextField(b).value.token, Tokens(NextField(b).value.rest).value;
      assert ([t] + ts)[1..] == ts;
    }
  }

  lemma {:induction false} UnixfsRestStep(u: Unixfs, b: Octets)
    requires |b| > 0
    ensures UnixfsRest(u, b) == match NextField(b)
                                case None => None
                                case Some(next) => UnixfsRest(UnixfsField(u, next.token), next.rest)
  {
    TokensHead(b);
    if NextField(b).Some? && Tokens(NextField(b).value.rest).Some? {
      var t, ts := NextField(b).value.token, Tokens(NextField(b).value.rest).value;
      assert ([t] + ts)[1..] == ts;
    }
  }

  // ----- moving the position -----

  /** Where the field that starts here stands once its key has been read. */
  ghost predicate KeyRead(bytes: Octets, start: nat, key: Option<u64>, pos: nat) {
    start <= pos <= |bytes| &&
    match key
    case None => NextField(bytes[start..]) == None
    case Some(k) => NextField(bytes[start..]) == FieldBody(k / 8, k % 8, bytes[pos..])
  }

  method ReadKey(bytes: Octets, pos: nat) returns (key: Option<u64>, next: nat)
    requires pos < |bytes|
    ensures KeyRead(bytes, pos, key, next) && (key.Some? ==> pos < next)
  {
    key, next := Varint.ReadField(bytes, pos);
  }

  /** A length and that many octets. */
  method ReadDelimited(bytes: Octets, pos: nat, ghost field: nat) returns (r: Option<Octets>, next: nat)
    requires pos <= |bytes|
    ensures pos <= next <= |bytes|
    ensures match r
            case None => FieldBody(field, 2, bytes[pos..]) == None
            case Some(payload) =>
              FieldBody(field, 2, bytes[pos..]) == Some(Next(Token(field, Delimited(payload)), bytes[next..]))
  {
    var length;
    length, next := Varint.ReadField(bytes, pos);
    if length.None? || next + length.value > |bytes| {
      return None, next;
    }
    var end := next + length.value;
    assert bytes[next..][..length.value] == bytes[next..end];
    assert bytes[next..][length.value..] == bytes[end..];
    r, next := Some(bytes[next..end]), end;
  }

  method ReadNumber(bytes: Octets, pos: nat, ghost field: nat) returns (r: Option<u64>, next: nat)
    requires pos <= |bytes|
    ensures pos <= next <= |bytes|
    ensures match r
            case None => FieldBody(field, 0, bytes[pos..]) == None
            case Some(value) =>
              FieldBody(field, 0, bytes[pos..]) == Some(Next(Token(field, Num(value)), bytes[next..]))
  {
    r, next := Varint.ReadField(bytes, pos);
  }

  /** Step over a field nobody asked for. */
  method SkipField(bytes: Octets, pos: nat, ghost field: nat, wire: nat) returns (ok: bool, next: nat)
    requires pos <= |bytes|
    ensures ok ==> pos <= next <= |bytes|
    ensures ok == FieldBody(field, wire, bytes[pos..]).Some?
    ensures ok ==> FieldBody(field, wire, bytes[pos..]).value.rest == bytes[next..]
  {
    next := pos;
    if wire == 0 {
      var value;
      value, next := Varint.ReadField(bytes, pos);
      return value.Some?, next;
    } else if wire == 1 {
      next := pos + 8;
    } else if wire == 2 {
      var length;
      length, next := Varint.ReadField(bytes, pos);
      if length.None? {
        return false, next;
      }
      assert next + length.value <= |bytes| ==> bytes[next..][length.value..] == bytes[next + length.value..];
      next := next + length.value;
    } else if wire == 5 {
      next := pos + 4;
    } else {
      return false, next;
    }
    ok := next <= |bytes|;
    assert ok && wire == 1 ==> bytes[pos..][8..] == bytes[next..];
    assert ok && wire == 5 ==> bytes[pos..][4..] == bytes[next..];
  }

  method ParseLinkRegion(region: Octets) returns (r: Option<PbLink>)
    ensures r == ParseLink(region)
  {
    var pos: nat := 0;
    var hash: Octets, name: Str, tsize: u64 := [], [], 0;
    assert region[0..] == region;
    while pos < |region|
      invariant pos <= |region|
      invariant ParseLink(region) == LinkRest(PbLink(hash, name, tsize), region[pos..])
      decreases |region| - pos
    {
      LinkRestStep(PbLink(hash, name, tsize), region[pos..]);
      var key;
      key, pos := ReadKey(region, pos);
      if key.None? {
        return None;
      }
      var field, wire := key.value / 8, key.value % 8;
      if field == 1 && wire == 2 {
        var payload;
        payload, pos := ReadDelimited(region, pos, field);
        if payload.None? {
          return None;
        }
        hash := payload.value;
      } else if field == 2 && wire == 2 {
        var payload;
        payload, pos := ReadDelimited(region, pos, field);
        if payload.None? || !ValidUtf8(payload.value) {
          return None;
        }
        name := payload.value;
      } else if field == 3 && wire == 0 {
        var value;
        value, pos := ReadNumber(region, pos, field);
        if value.None? {
          return None;
        }
        tsize := value.value;
      } else {
        var ok;
        ok, pos := SkipField(region, pos, field, wire);
        if !ok {
          return None;
        }
      }
    }
    assert region[pos..] == [];
    r := Some(PbLink(hash, name, tsize));
  }

  method ParseNodeBytes(bytes: Octets) returns (r: Option<PbNode>)
    ensures r == ParseNode(bytes)
  {
    var pos: nat := 0;
    var data: Octets, links: seq<PbLink> := [], [];
    assert bytes[0..] == bytes;
    while pos < |bytes|
      invariant pos <= |bytes|
      invariant ParseNode(bytes) == NodeRest(PbNode(data, links), bytes[pos..])
      decreases |bytes| - pos
    {
      NodeRestStep(PbNode(data, links), bytes[pos..]);
      var key;
      key, pos := ReadKey(bytes, pos);
      if key.None? {
        return None;
      }
      var field, wire := key.value / 8, key.value % 8;
      if field == 1 && wire == 2 {
        var payload;
        payload, pos := ReadDelimited(bytes, pos, field);
        if payload.None? {
          return None;
        }
        data := payload.value;
      } else if field == 2 && wire == 2 {
        var region;
        region, pos := ReadDelimited(bytes, pos, field);
        if region.None? {
          return None;
        }
        var link := ParseLinkRegion(region.value);
        if link.None? {
          return None;
        }
        links := links + [link.value];
      } else {
        var ok;
        ok, pos := SkipField(bytes, pos, field, wire);
        if !ok {
          return None;
        }
      }
    }
    assert bytes[pos..] == [];
    r := Some(PbNode(data, links));
  }

  method ParseUnixfsBytes(data: Octets) returns (r: Option<Unixfs>)
    ensures r == ParseUnixfs(data)
  {
    if |data| == 0 {
      return Some(Unixfs(UNIXFS_DIRECTORY, []));
    }
    var pos: nat := 0;
    var kind: u64, payload: Octets := UNIXFS_FILE, [];
    assert data[0..] == data;
    while pos < |data|
      invariant pos <= |data|
      invariant ParseUnixfs(data) == UnixfsRest(Unixfs(kind, payload), data[pos..])
      decreases |data| - pos
    {
      UnixfsRestStep(Unixfs(kind, payload), data[pos..]);
      var key;
      key, pos := ReadKey(data, pos);
      if key.None? {
        return None;
      }
      var field, wire := key.value / 8, key.value % 8;
      if field == 1 && wire == 0 {
        var value;
        value, pos := ReadNumber(data, pos, field);
        if value.None? {
          return None;
        }
        kind := value.value;
      } else if field == 2 && wire == 2 {
        var bytes;
        bytes, pos := ReadDelimited(data, pos, field);
        if bytes.None? {
          return None;
        }
        payload := bytes.value;
      } else if (field == 3 || field == 4) && wire == 0 {
        var value;
        value, pos := ReadNumber(data, pos, field);
        if value.None? {
          return None;
        }
      } else {
        var ok;
        ok, pos := SkipField(data, pos, field, wire);
        if !ok {
          return None;
        }
      }
    }
    assert data[pos..] == [];
    r := Some(Unixfs(kind, payload));
  }
}
