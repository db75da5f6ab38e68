/** Relaying an upstream response to the client: the headers that go through, and the line-by-line copy of an
    event stream (upstream/relay.go). */
module Relay {
  import opened Text
  import opened Inject

  // ---------- headers ----------

  /** Go's `strings.Split` by one character. */
  function Split(s: string, c: char): seq<string> {
    var i := IndexOf(s, c);
    if i == -1 then [s] else [s[..i]] + Split(s[i + 1..], c)
  }

  predicate IsBlankByte(c: char) {
    c == ' ' || c == '\t' || c == '\n' || c == '\r'
  }

  /** Go's `textproto.TrimString`. */
  function TrimToken(s: string): string {
    if s != "" && IsBlankByte(s[0]) then TrimToken(s[1..])
    else if s != "" && IsBlankByte(s[|s| - 1]) then TrimToken(s[..|s| - 1])
    else s
  }

  /** The header names these list entries stand for. */
  function FieldNames(fields: seq<string>): set<string> {
    set f | f in fields && TrimToken(f) != "" :: Canonical(TrimToken(f))
  }

  /** The header names a Connection value lists. */
  function Nominated(value: string): set<string> {
    FieldNames(Split(value, ','))
  }

  const HOP_BY_HOP: seq<string> := [
    "Connection", "Keep-Alive", "Proxy-Authenticate", "Proxy-Authorization",
    "Te", "Trailer", "Transfer-Encoding", "Upgrade"]

  /** `Header.Get`: the first value under a name, or nothing. */
  function First(h: Header, name: string): string {
    var values := ValuesOf(h, Canonical(name));
    if values == [] then "" else values[0]
  }

  /** The headers that may go on: all but the hop-by-hop ones and those the first Connection value lists. */
  function EndToEnd(h: Header): Header {
    h - HopNames() - Nominated(First(h, "Connection"))
  }

  /** The names `Header.Del` removes for the hop-by-hop list. */
  function HopNames(): set<string> {
    CanonicalNames(HOP_BY_HOP)
  }

  function CanonicalNames(names: seq<string>): set<string> {
    set k | k in names :: Canonical(k)
  }

  lemma FieldNamesStep(fields: seq<string>, i: nat)
    requires i < |fields|
    ensures var f := TrimToken(fields[i]);
            FieldNames(fields[..i + 1]) == FieldNames(fields[..i]) + if f != "" then {Canonical(f)} else {}
  {
    hide Canonical, TrimToken;
    assert fields[..i + 1] == fields[..i] + [fields[i]];
    forall n | n in FieldNames(fields[..i + 1]) && n !in FieldNames(fields[..i])
      ensures TrimToken(fields[i]) != "" && n == Canonical(TrimToken(fields[i]))
    {
      var f :| f in fields[..i + 1] && TrimToken(f) != "" && Canonical(TrimToken(f)) == n;
      assert f in fields[..i] || f == fields[i];
    }
    assert fields[i] in fields[..i + 1];
    assert forall f | f in fields[..i] :: f in fields[..i + 1];
  }

  lemma CanonicalNamesStep(names: seq<string>, i: nat)
    requires i < |names|
    ensures CanonicalNames(names[..i + 1]) == CanonicalNames(names[..i]) + {Canonical(names[i])}
  {
    hide Canonical;
    assert names[..i + 1] == names[..i] + [names[i]];
    assert names[i] in names[..i + 1];
    assert forall f | f in names[..i] :: f in names[..i + 1];
  }

  method RemoveHopByHopHeaders(h: Header) returns (r: Header)
    ensures r == EndToEnd(h)
  {
    hide Canonical, TrimToken, Split, FieldNames, CanonicalNames, First;
    r := h;
    var c := First(h, "Connection");
    ghost var listed := {};
    EmptyListsNothing();
    if c != "" {
      var fields := Split(c, ',');
      assert fields[..0] == [];
      for i := 0 to |fields|
        invariant listed == FieldNames(fields[..i])
        invariant r == h - listed
      {
        FieldNamesStep(fields, i);
        var f := TrimToken(fields[i]);
        if f != "" {
          r := r - {Canonical(f)};
          listed := listed + {Canonical(f)};
        }
      }
      assert fields[..|fields|] == fields;
    }
    assert listed == Nominated(c);
    for i := 0 to |HOP_BY_HOP|
      invariant r == h - listed - CanonicalNames(HOP_BY_HOP[..i])
    {
      CanonicalNamesStep(HOP_BY_HOP, i);
      r := r - {Canonical(HOP_BY_HOP[i])};
    }
    assert HOP_BY_HOP[..|HOP_BY_HOP|] == HOP_BY_HOP;
  }

  lemma EmptyListsNothing()
    ensures Nominated("") == {} && FieldNames([]) == {} && CanonicalNames([]) == {}
  {
    assert Split("", ',') == [""];
    assert TrimToken("") == "";
  }

  /** Every name any Connection value lists, as section 6.1 of RFC 7230 wants removed. */
  function AllNominated(h: Header): set<string> {
    set v, n | v in ValuesOf(h, Canonical("Connection")) && n in Nominated(v) :: n
  }

  /** All listed headers are removed exactly when every one that is present is on the fixed list or already in the
      first Connection value: later values are not looked at. */
  lemma LaterConnectionValuesIgnored(h: Header)
    ensures EndToEnd(h).Keys !! AllNominated(h) <==>
            forall n | n in AllNominated(h) && n in h :: n in HopNames() || n in Nominated(First(h, "Connection"))
  {
    hide Nominated, HopNames, First, AllNominated;
    if forall n | n in AllNominated(h) && n in h :: n in HopNames() || n in Nominated(First(h, "Connection")) {
      forall n | n in EndToEnd(h) ensures n !in AllNominated(h) {}
    } else {
      var n :| n in AllNominated(h) && n in h && !(n in HopNames() || n in Nominated(First(h, "Connection")));
      assert n in EndToEnd(h).Keys;
    }
  }

  /** A response with two Connection values, the second of which lists a header that is there. */
  function TwoValues(): Header {
    map[Canonical("Connection") := ["close", "x-a"], Canonical("x-a") := ["1"]]
  }

  /** That header goes on to the client. */
  lemma SecondValueIgnored()
    ensures Canonical("x-a") in AllNominated(TwoValues()) && Canonical("x-a") in EndToEnd(TwoValues())
  {
    hide Canonical, TrimToken, HopNames;
    OneName("close");
    OneName("x-a");
    ShortNames();
    assert ["close", "x-a"][1] == "x-a";
    assert ValuesOf(TwoValues(), Canonical("Connection")) == ["close", "x-a"];
  }

  lemma OneName(name: string)
    requires ',' !in name && name != "" && forall c | c in name :: !IsBlankByte(c)
    ensures Nominated(name) == {Canonical(name)}
  {
    hide Canonical;
    assert Split(name, ',') == [name];
    assert name[0] in name && name[|name| - 1] in name;
    assert TrimToken(name) == name;
  }

  lemma SameLength(name: string)
    ensures |Canonical(name)| == |name|
  {
  }

  lemma ShortNames()
    ensures Canonical("x-a") != Canonical("Connection") && Canonical("x-a") != Canonical("close")
    ensures Canonical("x-a") !in HopNames()
  {
    hide Canonical;
    SameLength("x-a");
    SameLength("Connection");
    SameLength("close");
    forall k | k in HOP_BY_HOP ensures Canonical(k) != Canonical("x-a") {
      SameLength(k);
    }
  }

  // ---------- which headers that leaves ----------

  /** `f` stands in the value at `i`, between commas. */
  predicate FieldAt(value: string, i: int, f: string) {
    && 0 <= i <= |value| - |f| && value[i..i + |f|] == f && ',' !in f
    && (i == 0 || value[i - 1] == ',') && (i + |f| == |value| || value[i + |f|] == ',')
  }

  /** One of the fields that commas cut the value into. */
  ghost predicate FieldOf(value: string, f: string) {
    exists i :: FieldAt(value, i, f)
  }

  lemma {:induction false} SplitIs(value: string, f: string)
    ensures f in Split(value, ',') <==> FieldOf(value, f)
  {
    hide FieldAt;
    var n := IndexOf(value, ',');
    if n == -1 {
      OnlyField(value, f);
    } else {
      SplitIs(value[n + 1..], f);
      FirstOrLater(value, n, f);
    }
  }

  lemma OnlyField(value: string, f: string)
    requires ',' !in value
    ensures FieldOf(value, f) <==> f == value
  {
    if f == value {
      assert FieldAt(value, 0, f);
    }
  }

  lemma FirstOrLater(value: string, n: nat, f: string)
    requires n < |value| && value[n] == ',' && ',' !in value[..n]
    ensures FieldOf(value, f) <==> f == value[..n] || FieldOf(value[n + 1..], f)
  {
    var rest := value[n + 1..];
    if f == value[..n] {
      assert FieldAt(value, 0, f);
    }
    if i :| FieldAt(rest, i, f) {
      assert value[n + 1 + i..n + 1 + i + |f|] == rest[i..i + |f|];
      assert FieldAt(value, n + 1 + i, f);
    }
    if i :| FieldAt(value, i, f) {
      if i <= n {
        EarlyField(value, n, i, f);
      } else {
        assert rest[i - n - 1..i - n - 1 + |f|] == f;
        assert FieldAt(rest, i - n - 1, f);
      }
    }
  }

  lemma EarlyField(value: string, n: nat, i: int, f: string)
    requires n < |value| && value[n] == ',' && ',' !in value[..n] && FieldAt(value, i, f) && i <= n
    ensures f == value[..n]
  {
    assert forall k | 0 <= k < |f| :: f[k] == value[i + k] && f[k] in f;
    assert forall k | 0 <= k < n :: value[k] == value[..n][k] && value[..n][k] in value[..n];
    assert i == 0 && n >= |f| >= n;
  }

  /** `t` stands in `f` at `i`, with nothing but blanks around it and none at its own ends. */
  predicate CoreAt(f: string, i: int, t: string) {
    && t != "" && !IsBlankByte(t[0]) && !IsBlankByte(t[|t| - 1]) && 0 <= i <= |f| - |t| && f[i..i + |t|] == t
    && (forall k | 0 <= k < i :: IsBlankByte(f[k])) && (forall k | i + |t| <= k < |f| :: IsBlankByte(f[k]))
  }

  /** `t` is what is left of `f` without the blanks around it. */
  ghost predicate Core(f: string, t: string) {
    exists i :: CoreAt(f, i, t)
  }

  lemma {:induction false} TrimIsCore(f: string)
    ensures TrimToken(f) != "" ==> Core(f, TrimToken(f))
    ensures TrimToken(f) == "" ==> forall k | 0 <= k < |f| :: IsBlankByte(f[k])
    decreases |f|
  {
    hide Core, CoreAt;
    var t := TrimToken(f);
    if f != "" && IsBlankByte(f[0]) {
      TrimIsCore(f[1..]);
      assert forall k | 1 <= k < |f| :: f[k] == f[1..][k - 1];
      if t != "" {
        CoreShift(f, t);
      }
    } else if f != "" && IsBlankByte(f[|f| - 1]) {
      var g := f[..|f| - 1];
      TrimIsCore(g);
      if t != "" {
        CoreGrows(f, t);
      } else {
        assert g != "" ==> g[0] == f[0];
      }
    } else if f != "" {
      CoreWhole(f);
    }
  }

  lemma CoreWhole(f: string)
    requires f != "" && !IsBlankByte(f[0]) && !IsBlankByte(f[|f| - 1])
    ensures Core(f, f)
  {
    assert f[0..|f|] == f;
    assert CoreAt(f, 0, f);
  }

  lemma CoreShift(f: string, t: string)
    requires f != "" && IsBlankByte(f[0]) && Core(f[1..], t)
    ensures Core(f, t)
  {
    hide IsBlankByte;
    var g := f[1..];
    var i :| CoreAt(g, i, t);
    assert f[i + 1..i + 1 + |t|] == g[i..i + |t|];
    assert forall k | 1 <= k < |f| :: f[k] == g[k - 1];
    assert CoreAt(f, i + 1, t);
  }

  lemma CoreGrows(f: string, t: string)
    requires f != "" && IsBlankByte(f[|f| - 1]) && Core(f[..|f| - 1], t)
    ensures Core(f, t)
  {
    hide IsBlankByte;
    var g := f[..|f| - 1];
    var i :| CoreAt(g, i, t);
    assert f[i..i + |t|] == g[i..i + |t|];
    assert forall k | 0 <= k < |f| - 1 :: f[k] == g[k];
    assert CoreAt(f, i, t);
  }

  lemma CoreUnique(f: string, s: string, t: string)
    requires Core(f, s) && Core(f, t)
    ensures s == t
  {
    hide IsBlankByte;
    var i :| CoreAt(f, i, s);
    var j :| CoreAt(f, j, t);
    assert s[0] == f[i] && t[0] == f[j] && s[|s| - 1] == f[i + |s| - 1] && t[|t| - 1] == f[j + |t| - 1];
    assert i == j && |s| == |t|;
  }

  lemma TrimIff(f: string, t: string)
    requires t != ""
    ensures TrimToken(f) == t <==> Core(f, t)
  {
    hide Core, TrimToken;
    TrimIsCore(f);
    if Core(f, t) {
      if TrimToken(f) == "" {
        CoreNotBlank(f, t);
      } else {
        CoreUnique(f, TrimToken(f), t);
      }
    }
  }

  lemma CoreNotBlank(f: string, t: string)
    requires Core(f, t)
    ensures exists k | 0 <= k < |f| :: !IsBlankByte(f[k])
  {
    hide IsBlankByte;
    var i :| CoreAt(f, i, t);
    assert f[i] == t[0];
  }

  /** The header names a Connection value lists: what each of its comma-separated fields holds between the blanks. */
  lemma NominatedIff(value: string, n: string)
    ensures n in Nominated(value) <==> exists f, t :: FieldOf(value, f) && Core(f, t) && n == Canonical(t)
  {
    hide Core, FieldOf, TrimToken, Split, Canonical;
    if n in Nominated(value) {
      var f :| f in Split(value, ',') && TrimToken(f) != "" && n == Canonical(TrimToken(f));
      SplitIs(value, f);
      TrimIff(f, TrimToken(f));
      assert FieldOf(value, f) && Core(f, TrimToken(f));
    }
    if f, t :| FieldOf(value, f) && Core(f, t) && n == Canonical(t) {
      SplitIs(value, f);
      assert t != "" by { CoreSome(f, t); }
      TrimIff(f, t);
      assert f in Split(value, ',') && TrimToken(f) != "";
    }
  }

  lemma CoreSome(f: string, t: string)
    requires Core(f, t)
    ensures t != ""
  {
  }

  /** Of a response's headers the client gets, value for value, all but eight fixed names and those the first Connection
      value lists. */
  lemma EndToEndIs(h: Header)
    ensures EndToEnd(h) ==
            map k | k in h && k !in Nominated(if "Connection" in h && h["Connection"] != [] then h["Connection"][0] else "")
                    && k !in {"Connection", "Keep-Alive", "Proxy-Authenticate", "Proxy-Authorization", "Te", "Trailer",
                              "Transfer-Encoding", "Upgrade"} :: h[k]
  {
    hide Nominated, HopNames;
    HopNamesAre();
    FirstConnection(h);
  }

  lemma FirstConnection(h: Header)
    ensures First(h, "Connection") == if "Connection" in h && h["Connection"] != [] then h["Connection"][0] else ""
  {
    hide Canonical;
    ConnectionName();
  }

  lemma ConnectionName()
    ensures Canonical("Connection") == "Connection"
  {
    var a := Title("Connection");
    assert a[0] == 'C' && a[1] == 'o' && a[2] == 'n' && a[3] == 'n' && a[4] == 'e' && a[5] == 'c' && a[6] == 't';
    assert a[7] == 'i' && a[8] == 'o' && a[9] == 'n';
    assert a == "Connection";
  }

  lemma HopNamesAre()
    ensures HopNames() == {"Connection", "Keep-Alive", "Proxy-Authenticate", "Proxy-Authorization", "Te", "Trailer",
                           "Transfer-Encoding", "Upgrade"}
  {
    hide Canonical, CanonicalNames;
    ConnectionName();
    ShortHops();
    ProxyHops();
    TransferHop();
    CanonicalNamesAre(HOP_BY_HOP);
  }

  lemma CanonicalNamesAre(names: seq<string>)
    requires forall k | k in names :: Canonical(k) == k
    ensures CanonicalNames(names) == Elements(names)
  {
    hide Canonical;
    forall k | k in names ensures k in CanonicalNames(names) {
      assert Canonical(k) in CanonicalNames(names);
    }
  }

  lemma ShortHops()
    ensures Canonical("Keep-Alive") == "Keep-Alive" && Canonical("Te") == "Te"
    ensures Canonical("Trailer") == "Trailer" && Canonical("Upgrade") == "Upgrade"
  {
    var k, e, t, u := Title("Keep-Alive"), Title("Te"), Title("Trailer"), Title("Upgrade");
    assert k[0] == 'K' && k[1] == 'e' && k[2] == 'e' && k[3] == 'p' && k[4] == '-' && k[5] == 'A' && k[6] == 'l';
    assert k[7] == 'i' && k[8] == 'v' && k[9] == 'e';
    assert e[0] == 'T' && e[1] == 'e';
    assert t[0] == 'T' && t[1] == 'r' && t[2] == 'a' && t[3] == 'i' && t[4] == 'l' && t[5] == 'e' && t[6] == 'r';
    assert u[0] == 'U' && u[1] == 'p' && u[2] == 'g' && u[3] == 'r' && u[4] == 'a' && u[5] == 'd' && u[6] == 'e';
    assert k == "Keep-Alive" && e == "Te" && t == "Trailer" && u == "Upgrade";
  }

  lemma ProxyHops()
    ensures Canonical("Proxy-Authenticate") == "Proxy-Authenticate"
    ensures Canonical("Proxy-Authorization") == "Proxy-Authorization"
  {
    var a, b := Title("Proxy-Authenticate"), Title("Proxy-Authorization");
    assert a[0] == 'P' && a[1] == 'r' && a[2] == 'o' && a[3] == 'x' && a[4] == 'y' && a[5] == '-' && a[6] == 'A';
    assert a[7] == 'u' && a[8] == 't' && a[9] == 'h' && a[10] == 'e' && a[11] == 'n' && a[12] == 't' && a[13] == 'i';
    assert a[14] == 'c' && a[15] == 'a' && a[16] == 't' && a[17] == 'e';
    assert b[0] == 'P' && b[1] == 'r' && b[2] == 'o' && b[3] == 'x' && b[4] == 'y' && b[5] == '-' && b[6] == 'A';
    assert b[7] == 'u' && b[8] == 't' && b[9] == 'h' && b[10] == 'o' && b[11] == 'r' && b[12] == 'i' && b[13] == 'z';
    assert b[14] == 'a' && b[15] == 't' && b[16] == 'i' && b[17] == 'o' && b[18] == 'n';
    assert a == "Proxy-Authenticate" && b == "Proxy-Authorization";
  }

  lemma TransferHop()
    ensures Canonical("Transfer-Encoding") == "Transfer-Encoding"
  {
    var a := Title("Transfer-Encoding");
    assert a[0] == 'T' && a[1] == 'r' && a[2] == 'a' && a[3] == 'n' && a[4] == 's' && a[5] == 'f' && a[6] == 'e';
    assert a[7] == 'r' && a[8] == '-' && a[9] == 'E' && a[10] == 'n' && a[11] == 'c' && a[12] == 'o' && a[13] == 'd';
    assert a[14] == 'i' && a[15] == 'n' && a[16] == 'g';
    assert a == "Transfer-Encoding";
  }

  // ---------- the body ----------

  newtype byte = x: int | 0 <= x < 256

  const NEWLINE: byte := 10

  /** How the upstream body ends once its bytes are read. */
  datatype End = Eof | Broken

  datatype CopyResult = Whole | ReadFailed | WriteFailed | Cancelled

  /** The client's connection. It takes at most `limit` bytes and then fails; `flushed` bytes have been pushed out,
      `flushes` says how many each time; `replies` counts the status lines handlers tried to send. */
  class ResponseWriter {
    const limit: Option<nat>
    const canFlush: bool
    var header: Header
    var status: Option<int>
    var written: seq<byte>
    var flushed: nat
    var flushes: seq<nat>
    var replies: nat

    predicate Room(n: nat) {
      limit.None? || n <= limit.value
    }

    ghost predicate Valid()
      reads this
    {
      Room(|written|) && flushed <= |written| && (flushes != [] ==> flushes[|flushes| - 1] == flushed)
    }

    constructor (limit: Option<nat>, canFlush: bool)
      ensures Valid() && written == [] && header == map[] && status == None && replies == 0 && flushes == []
      ensures this.limit == limit && this.canFlush == canFlush
    {
      this.limit, this.canFlush := limit, canFlush;
      header, status, written, flushed, replies, flushes := map[], None, [], 0, 0, [];
    }

    /** Only the first status line goes out. */
    method WriteHeader(code: int)
      modifies `status, `replies
      ensures status == (if old(status).None? then Some(code) else old(status)) && replies == old(replies) + 1
    {
      if status.None? {
        status := Some(code);
      }
      replies := replies + 1;
    }

    method Add(k: string, value: string)
      modifies `header
      ensures header == old(header)[Canonical(k) := ValuesOf(old(header), Canonical(k)) + [value]]
    {
      header := header[Canonical(k) := ValuesOf(header, Canonical(k)) + [value]];
    }

    /** A write that does not fit takes what still fits. */
    method Write(data: seq<byte>) returns (ok: bool)
      requires Valid()
      modifies `written
      ensures Valid() && ok == Room(|old(written)| + |data|)
      ensures ok ==> written == old(written) + data
      ensures !ok ==> written == old(written) + data[..limit.value - |old(written)|] && |written| == limit.value
    {
      ok := Room(|written| + |data|);
      written := written + if ok then data else data[..limit.value - |written|];
    }

    method Flush()
      requires Valid()
      modifies `flushed, `flushes
      ensures Valid() && flushed == |written| && flushes == old(flushes) + [|written|]
    {
      flushed := |written|;
      flushes := flushes + [|written|];
    }
  }

  /** Length of the next `ReadString('\n')`: through the first newline, or all there is. */
  function LineLength(data: seq<byte>): (n: nat)
    ensures n <= |data| && (data != [] ==> n > 0)
    ensures n < |data| ==> n > 0 && data[n - 1] == NEWLINE
    ensures forall p | 0 <= p < n - 1 :: data[p] != NEWLINE
  {
    if data == [] then 0
    else if data[0] == NEWLINE then 1
    else
      var rest := LineLength(data[1..]);
      assert forall p | 1 <= p < rest :: data[p] == data[1..][p - 1];
      1 + rest
  }

  /** Each complete line among the first `n` bytes was pushed out when the client had that line and nothing after it. */
  ghost predicate LinesFlushed(flushes: seq<nat>, base: nat, body: seq<byte>, n: int) {
    0 <= n <= |body| && forall p | 0 <= p < n && body[p] == NEWLINE :: base + p + 1 in flushes
  }

  /** The client has what it had before and the first `n` bytes of the body. */
  ghost predicate Passed(start: seq<byte>, body: seq<byte>, written: seq<byte>, n: int) {
    0 <= n <= |body| && written == start + body[..n]
  }

  /** The line that starts at `at`, or what there is of it. */
  function LineAt(body: seq<byte>, at: nat): (line: seq<byte>)
    requires at <= |body|
    ensures at + |line| <= |body| && line == body[at..at + |line|]
    ensures forall p | at <= p < at + |line| - 1 :: body[p] != NEWLINE
    ensures line == [] || line[|line| - 1] != NEWLINE ==> at + |line| == |body|
  {
    var rest := body[at..];
    var n := LineLength(rest);
    assert forall p | at <= p < |body| :: body[p] == rest[p - at];
    assert rest[..n] == body[at..at + n];
    rest[..n]
  }

  lemma PassMore(start: seq<byte>, body: seq<byte>, written: seq<byte>, at: nat, kept: nat)
    requires Passed(start, body, written, at) && kept <= |LineAt(body, at)|
    ensures Passed(start, body, written + LineAt(body, at)[..kept], at + kept)
  {
    hide LineAt;
    assert body[..at + kept] == body[..at] + LineAt(body, at)[..kept];
  }

  lemma FlushMore(flushes: seq<nat>, base: nat, body: seq<byte>, at: nat)
    requires at <= |body| && LinesFlushed(flushes, base, body, at)
    ensures LinesFlushed(flushes + [base + at + |LineAt(body, at)|], base, body, at + |LineAt(body, at)|)
  {
    hide LineAt;
  }

  /** A line that is cut short has no newline yet. */
  lemma FlushNoMore(flushes: seq<nat>, base: nat, body: seq<byte>, at: nat, kept: nat)
    requires at <= |body| && LinesFlushed(flushes, base, body, at)
    requires kept < |LineAt(body, at)| || kept == 0
    ensures LinesFlushed(flushes, base, body, at + kept)
  {
    hide LineAt;
  }

  /** Writes a line and flushes it, if it is not empty. */
  method PassLine(w: ResponseWriter, line: seq<byte>) returns (ok: bool)
    requires w.Valid()
    modifies w`written, w`flushed, w`flushes
    ensures w.Valid() && (ok <==> line == [] || w.Room(|old(w.written)| + |line|))
    ensures ok ==> w.written == old(w.written) + line
    ensures ok ==> w.flushes == old(w.flushes) + if line != [] && w.canFlush then [|w.written|] else []
    ensures ok && line != [] && w.canFlush ==> w.flushed == |w.written|
    ensures line == [] ==> w.flushed == old(w.flushed)
    ensures !ok ==> w.flushes == old(w.flushes) && |w.written| == w.limit.value
                    && |old(w.written)| <= |w.written| < |old(w.written)| + |line|
                    && w.written == old(w.written) + line[..|w.written| - |old(w.written)|]
  {
    if line == [] {
      return true;
    }
    ok := w.Write(line);
    if ok && w.canFlush {
      w.Flush();
    }
  }

  /** `copySSE`. `cancelled(k)` says whether the request's context is done when round `k` starts.

      At every exit the client has a prefix of the upstream body; a nil return means all of it and a proper end;
      each complete line it has was flushed before anything after it was written; and the loop ends, after at most
      one round a byte and one more. */
  method CopySSE(w: ResponseWriter, body: seq<byte>, end: End, cancelled: nat -> bool)
    returns (r: CopyResult, rounds: nat)
    requires w.Valid()
    modifies w`written, w`flushed, w`flushes
    ensures w.Valid()
    ensures Passed(old(w.written), body, w.written, |w.written| - |old(w.written)|)
    ensures r == Whole || r == ReadFailed ==> w.written == old(w.written) + body
    ensures r == Whole <==> end == Eof && w.Room(|old(w.written)| + |body|) && forall k: nat | k <= rounds :: !cancelled(k)
    ensures r == ReadFailed ==> end == Broken
    ensures r == WriteFailed ==> !w.Room(|old(w.written)| + |body|) && |w.written| == w.limit.value
    ensures r == Cancelled ==> cancelled(rounds) && forall k: nat | k < rounds :: !cancelled(k)
    ensures w.canFlush ==> LinesFlushed(w.flushes, |old(w.written)|, body, |w.written| - |old(w.written)|)
    ensures w.canFlush && r != WriteFailed && w.written != old(w.written) ==> w.flushed == |w.written|
    ensures rounds <= |body| + 1
  {
    hide LineLength, LinesFlushed, Passed, LineAt;
    ghost var start := w.written;
    NothingYet(start, body, w.flushes);
    var at := 0;
    rounds := 0;
    while true
      invariant 0 <= at <= |body| && rounds <= at && w.Valid() && |w.written| == |start| + at
      invariant Passed(start, body, w.written, at)
      invariant forall k: nat | k < rounds :: !cancelled(k)
      invariant at == 0 ==> w.written == start
      invariant w.canFlush && at > 0 ==> w.flushed == |w.written|
      invariant w.canFlush ==> LinesFlushed(w.flushes, |start|, body, at)
      decreases |body| - at
    {
      if cancelled(rounds) {
        r := Cancelled;
        return;
      }
      var line := LineAt(body, at);
      ghost var written, flushes := w.written, w.flushes;
      var ok := PassLine(w, line);
      ghost var kept := |w.written| - |written|;
      assert |w.written| - |start| == at + kept;
      PassMore(start, body, written, at, kept);
      if w.canFlush {
        if ok && line != [] {
          FlushMore(flushes, |start|, body, at);
        } else {
          assert flushes + [] == flushes;
          FlushNoMore(flushes, |start|, body, at, kept);
        }
      }
      if !ok {
        r := WriteFailed;
        return;
      }
      assert line[..|line|] == line;
      at := at + |line|;
      if line == [] || line[|line| - 1] != NEWLINE {
        AllPassed(start, body, w.written, at);
        r := if end == Eof then Whole else ReadFailed;
        return;
      }
      rounds := rounds + 1;
    }
  }

  lemma NothingYet(start: seq<byte>, body: seq<byte>, flushes: seq<nat>)
    ensures Passed(start, body, start, 0) && LinesFlushed(flushes, |start|, body, 0)
  {
    assert start + body[..0] == start;
  }

  lemma AllPassed(start: seq<byte>, body: seq<byte>, written: seq<byte>, n: nat)
    requires Passed(start, body, written, n) && n == |body|
    ensures written == start + body
  {
    assert body[..n] == body;
  }

  datatype Response = Response(status: int, header: Header, body: seq<byte>, end: End)

  /** Adds the upstream's end-to-end headers to the reply, in whatever order the map is iterated. */
  method CopyHeader(w: ResponseWriter, h: Header)
    requires CanonicalKeys(h)
    modifies w`header
    ensures w.header == Copied(old(w.header), h)
  {
    hide Canonical;
    ghost var start := w.header;
    var rest := h.Keys;
    CopiedNothing(start);
    assert h - rest == map[];
    while rest != {}
      invariant rest <= h.Keys
      invariant w.header == Copied(start, h - rest)
      decreases rest
    {
      var k :| k in rest;
      CopiedOneMore(start, h, rest, k);
      rest := rest - {k};
      AddValues(w, k, h[k]);
    }
    assert h - {} == h;
  }

  method AddValues(w: ResponseWriter, k: string, vals: seq<string>)
    requires Canonical(k) == k
    modifies w`header
    ensures w.header == WithAdded(old(w.header), k, vals)
  {
    hide Canonical;
    ghost var start := w.header;
    for i := 0 to |vals|
      invariant w.header == WithAdded(start, k, vals[..i])
    {
      assert vals[..i + 1] == vals[..i] + [vals[i]];
      assert ValuesOf(start, k) + vals[..i + 1] == ValuesOf(start, k) + vals[..i] + [vals[i]];
      assert ValuesOf(start, k) + [] == ValuesOf(start, k);
      w.Add(k, vals[i]);
    }
    assert vals[..|vals|] == vals;
  }

  const EVENT_STREAM := "text/event-stream"

  /** `CopyResponse`: the client gets the upstream's status and end-to-end headers and a prefix of its body, which
      is all of it when the copy succeeds. */
  method CopyResponse(w: ResponseWriter, resp: Response, cancelled: nat -> bool) returns (r: CopyResult)
    requires w.Valid() && w.status.None? && CanonicalKeys(resp.header)
    modifies w
    ensures w.Valid() && w.status == Some(resp.status) && w.replies == old(w.replies) + 1
    ensures w.header == Copied(old(w.header), EndToEnd(resp.header))
    ensures exists n: nat | n <= |resp.body| :: w.written == old(w.written) + resp.body[..n]
    ensures r == Whole || r == ReadFailed ==> w.written == old(w.written) + resp.body
    ensures r == Whole ==> resp.end == Eof
    ensures r == Cancelled ==> Contains(First(resp.header, "Content-Type"), "text/event-stream")
    ensures Contains(First(resp.header, "Content-Type"), "text/event-stream") && w.canFlush ==>
              LinesFlushed(w.flushes, |old(w.written)|, resp.body, |w.written| - |old(w.written)|)
    ensures resp.end == Eof && w.Room(|old(w.written)| + |resp.body|) && (forall k: nat :: !cancelled(k)) ==> r == Whole
  {
    hide EndToEnd, Canonical, First, Contains;
    var h := RemoveHopByHopHeaders(resp.header);
    assert CanonicalKeys(h) by { KeptAreCanonical(resp.header); }
    CopyHeader(w, h);
    w.WriteHeader(resp.status);
    if Contains(First(resp.header, "Content-Type"), EVENT_STREAM) {
      var rounds;
      r, rounds := CopySSE(w, resp.body, resp.end, cancelled);
      assert exists n: nat | n <= |resp.body| :: w.written == old(w.written) + resp.body[..n];
    } else {
      var ok := w.Write(resp.body);
      assert resp.body[..|resp.body|] == resp.body;
      r := if !ok then WriteFailed else if resp.end == Eof then Whole else ReadFailed;
    }
  }

  lemma KeptAreCanonical(h: Header)
    requires CanonicalKeys(h)
    ensures CanonicalKeys(EndToEnd(h))
  {
    hide Canonical, HopNames, Nominated;
  }
}
