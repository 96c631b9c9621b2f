/** Where a channel listens or connects to: nxcomp/src/ChannelEndPoint.cpp. */
module EndPoint {
  import opened Words

  type Long = n: int | -0x8000_0000_0000_0000 <= n < 0x8000_0000_0000_0000

  // ----- Numbers in strings -----

  predicate IsSpace(c: char) {
    c == ' ' || '\t' <= c <= '\r'
  }

  predicate IsDigit(c: char) {
    '0' <= c <= '9'
  }

  function DigitOf(c: char): nat
    requires IsDigit(c)
  {
    c as int - '0' as int
  }

  /** The number of leading characters that are spaces. */
  function Spaces(s: string): (n: nat)
    ensures n <= |s|
  {
    if s == "" || !IsSpace(s[0]) then 0 else 1 + Spaces(s[1..])
  }

  function LeadingDigits(s: string): (n: nat)
    ensures n <= |s| && forall i :: 0 <= i < n ==> IsDigit(s[i])
  {
    if s == "" || !IsDigit(s[0]) then 0 else 1 + LeadingDigits(s[1..])
  }

  function Decimal(s: string): nat
    requires forall i :: 0 <= i < |s| ==> IsDigit(s[i])
  {
    if s == "" then 0 else 10 * Decimal(s[..|s| - 1]) + DigitOf(s[|s| - 1])
  }

  function Clamped(n: int): Long {
    if n < -0x8000_0000_0000_0000 then -0x8000_0000_0000_0000
    else if n >= 0x8000_0000_0000_0000 then 0x7fff_ffff_ffff_ffff
    else n
  }

  /** strtol in base 10 over the whole string; None where it stops early or finds no digit. */
  function WholeNumber(s: string): Option<Long> {
    var t := s[Spaces(s)..];
    var signed := t != "" && (t[0] == '-' || t[0] == '+');
    var u := if signed then t[1..] else t;
    var n := LeadingDigits(u);
    if n == 0 || n < |u| then None
    else
      var value: int := Decimal(u);
      Some(Clamped(if signed && t[0] == '-' then -value else value))
  }

  /** What "%ld" prints for a number that is not negative. */
  function Printed(n: nat): (s: string)
    ensures s != "" && forall i :: 0 <= i < |s| ==> IsDigit(s[i])
  {
    var digit := ('0' as int + n % 10) as char;
    if n < 10 then [digit] else Printed(n / 10) + [digit]
  }

  lemma {:induction false} DecimalPrinted(n: nat)
    ensures Decimal(Printed(n)) == n
  {
    var s := Printed(n);
    if n >= 10 {
      assert s[..|s| - 1] == Printed(n / 10);
      DecimalPrinted(n / 10);
    } else {
      assert s[..0] == "";
    }
  }

  lemma {:induction false} AllLeading(s: string)
    requires forall i :: 0 <= i < |s| ==> IsDigit(s[i])
    ensures LeadingDigits(s) == |s|
  {
    if s != "" {
      AllLeading(s[1..]);
    }
  }

  /** The last digit counts ones and the others tens. */
  lemma DecimalBy(s: string, n: nat)
    requires (forall i :: 0 <= i < |s| ==> IsDigit(s[i])) && n < 10
    ensures var digit := "0123456789"[n];
            (forall i :: 0 <= i < |s| + 1 ==> IsDigit((s + [digit])[i])) && Decimal(s + [digit]) == 10 * Decimal(s) + n
  {
    assert (s + ["0123456789"[n]])[..|s|] == s;
  }

  /** A printed number is read back. */
  lemma NumberPrinted(n: Long)
    requires n >= 0
    ensures WholeNumber(Printed(n)) == Some(n)
  {
    var s := Printed(n);
    AllLeading(s);
    DecimalPrinted(n);
    assert IsDigit(s[0]) && Spaces(s) == 0 && s[0..] == s;
  }

  lemma DigitsRead(sign: char, d: string)
    requires (sign == '-' || sign == '+') && d != "" && forall i :: 0 <= i < |d| ==> IsDigit(d[i])
    ensures var n: int := Decimal(d); WholeNumber([sign] + d) == Some(Clamped(if sign == '-' then -n else n))
  {
    AllLeading(d);
    assert ([sign] + d)[1..] == d;
    SignedRead([sign] + d, d, Decimal(d));
  }

  lemma SignedRead(s: string, d: string, n: int)
    requires s != "" && (s[0] == '-' || s[0] == '+') && s[1..] == d != ""
    requires (forall i :: 0 <= i < |d| ==> IsDigit(d[i])) && LeadingDigits(d) == |d| && n == Decimal(d)
    ensures WholeNumber(s) == Some(Clamped(if s[0] == '-' then -n else n))
  {
    assert Spaces(s) == 0 && s[0..] == s;
  }

  /** A sign counts. */
  lemma SignRead(n: Long)
    requires n >= 0
    ensures WholeNumber(['-'] + Printed(n)) == Some(-n) && WholeNumber(['+'] + Printed(n)) == Some(n)
  {
    DecimalPrinted(n);
    DigitsRead('-', Printed(n));
    DigitsRead('+', Printed(n));
  }

  /** Leading white space does not. */
  lemma SpaceSkipped(c: char, s: string)
    requires c == ' ' || '\t' <= c <= '\r'
    ensures WholeNumber([c] + s) == WholeNumber(s)
  {
    assert ([c] + s)[1..] == s;
    assert ([c] + s)[Spaces([c] + s)..] == s[Spaces(s)..];
  }

  /** Nothing may follow the digits, and there must be some. */
  lemma RestRefused(n: Long, c: char)
    requires n >= 0 && !('0' <= c <= '9')
    ensures WholeNumber(Printed(n) + [c]) == None && WholeNumber("") == None
  {
    var d := Printed(n);
    LeadingStops(d, c);
    assert IsDigit(d[0]) && (d + [c])[0..] == d + [c];
  }

  lemma {:induction false} LeadingStops(d: string, c: char)
    requires (forall i :: 0 <= i < |d| ==> IsDigit(d[i])) && !IsDigit(c)
    ensures LeadingDigits(d + [c]) == |d|
  {
    if d != "" {
      assert (d + [c])[1..] == d[1..] + [c];
      LeadingStops(d[1..], c);
    }
  }

  // ----- Specifications -----

  const TCP_PREFIX: string := "tcp:"
  const UNIX_PREFIX: string := "unix:"

  predicate StartsWith(s: string, prefix: string) {
    |prefix| <= |s| && s[..|prefix|] == prefix
  }

  /** The index of the last colon, or the length of the string. */
  function LastColon(s: string): (i: nat)
    ensures i <= |s| && (i < |s| ==> s[i] == ':' && forall j :: i < j < |s| ==> s[j] != ':')
    ensures i == |s| ==> forall j :: 0 <= j < |s| ==> s[j] != ':'
  {
    if s == "" then 0
    else
      var i := LastColon(s[1..]);
      if i < |s| - 1 then i + 1 else if s[0] == ':' then 0 else |s|
  }

  /** getPort: a missing specification counts as -1. */
  function PortOf(spec: Option<string>): Option<Long> {
    match spec
    case None => Some(-1)
    case Some(s) => WholeNumber(s)
  }

  /** getUnixPath. */
  function UnixPathOf(spec: Option<string>, defaultPath: Option<string>): Option<string> {
    match PortOf(spec)
    case Some(p) => if p == 1 then defaultPath else None
    case None =>
      if spec.Some? && StartsWith(spec.value, UNIX_PREFIX) then
        var path := spec.value[|UNIX_PREFIX|..];
        if path == "" then defaultPath else Some(path)
      else None
  }

  datatype Address = NoAddress | Address(host: string, port: Long)

  const LOCALHOST: string := "localhost"

  /** The port named by the rest of a specification behind "tcp:"; 1 stands for the default. */
  function NamedPort(rest: string): Option<Long> {
    var i := LastColon(rest);
    if i == |rest| then Some(1) else WholeNumber(rest[i + 1..])
  }

  function AddressWith(host: string, p: Long, defaultPort: Long): Address {
    var port := if p == 1 then defaultPort else p;
    if port < 1 then NoAddress else Address(if host == "" then LOCALHOST else host, port)
  }

  /** getTCPHostAndPort. */
  function AddressOf(spec: Option<string>, defaultPort: Long): Address {
    match PortOf(spec)
    case Some(p) => AddressWith("", p, defaultPort)
    case None =>
      if spec.Some? && StartsWith(spec.value, TCP_PREFIX) then
        var rest := spec.value[|TCP_PREFIX|..];
        match NamedPort(rest)
        case None => NoAddress
        case Some(p) => AddressWith(rest[..LastColon(rest)], p, defaultPort)
      else NoAddress
  }

  function TCPSpec(host: string, port: Long): string
    requires port >= 0
  {
    TCP_PREFIX + (host + ([':'] + Printed(port)))
  }

  function UnixSpec(path: string): string {
    UNIX_PREFIX + path
  }

  /** getSpec. */
  function SpecOf(spec: Option<string>, defaultPort: Long, defaultPath: Option<string>): Option<string> {
    match UnixPathOf(spec, defaultPath)
    case Some(path) => Some(UnixSpec(path))
    case None =>
      match AddressOf(spec, defaultPort)
      case NoAddress => None
      case Address(host, port) => if port >= 1 then Some(TCPSpec(host, port)) else None
  }

  /** How specifications are spelt. */
  lemma Spelt(host: string, port: Long, path: string)
    requires port >= 0
    ensures TCPSpec(host, port) == "tcp:" + (host + (":" + Printed(port))) && UnixSpec(path) == "unix:" + path
  {
    assert TCP_PREFIX == "tcp:" && UNIX_PREFIX == "unix:";
  }

  // ----- Printing and parsing undo each other -----

  lemma {:induction false} LastColonAt(a: string, b: string)
    requires forall j :: 0 <= j < |b| ==> b[j] != ':'
    ensures LastColon(a + ([':'] + b)) == |a|
  {
    var s := a + ([':'] + b);
    assert s[|a|] == ':';
    assert forall j :: |a| < j < |s| ==> s[j] == b[j - |a| - 1];
  }

  lemma NotANumber(s: string, prefix: string)
    requires StartsWith(s, prefix) && prefix != "" && !IsSpace(prefix[0]) && !IsDigit(prefix[0]) &&
             prefix[0] != '-' && prefix[0] != '+'
    ensures WholeNumber(s) == None
  {
    assert s[0] == s[..|prefix|][0];
    assert Spaces(s) == 0 && s[0..] == s;
  }

  /** An address is what its specification is parsed to, whatever the host contains, unless the
      port stands for the default one. */
  lemma AddressPrinted(host: string, port: Long, defaultPort: Long)
    requires host != "" && port >= 1
    ensures AddressOf(Some(TCPSpec(host, port)), defaultPort) == AddressWith(host, port, defaultPort)
  {
    var s := TCPSpec(host, port);
    var rest := host + ([':'] + Printed(port));
    assert s[..4] == TCP_PREFIX && s[4..] == rest;
    NotANumber(s, TCP_PREFIX);
    PrintedPlain(port);
    LastColonAt(host, Printed(port));
    assert rest[|host| + 1..] == Printed(port) && rest[..|host|] == host;
    NumberPrinted(port);
  }

  /** A specification without a port, or without a path, stands for the default one. */
  lemma DefaultsServe(host: string, defaultPort: Long, defaultPath: Option<string>)
    requires ':' !in host
    ensures AddressOf(Some("tcp:" + host), defaultPort) ==
            if defaultPort < 1 then NoAddress else Address(if host == "" then "localhost" else host, defaultPort)
    ensures UnixPathOf(Some("unix:"), defaultPath) == defaultPath
  {
    var s := "tcp:" + host;
    assert s[..4] == TCP_PREFIX && s[4..] == host;
    NotANumber(s, TCP_PREFIX);
    assert host[..|host|] == host;
    var u := "unix:";
    assert u[..5] == UNIX_PREFIX && u[5..] == "";
    NotANumber(u, UNIX_PREFIX);
  }

  lemma PrintedPlain(n: nat)
    ensures forall j :: 0 <= j < |Printed(n)| ==> Printed(n)[j] != ':'
  {
    assert forall j :: 0 <= j < |Printed(n)| ==> IsDigit(Printed(n)[j]);
  }

  lemma NotUnix(s: string)
    requires StartsWith(s, TCP_PREFIX)
    ensures !StartsWith(s, UNIX_PREFIX)
  {
    assert s[..4][0] == s[0];
    assert |s| >= 5 ==> s[..5][0] == s[0];
  }

  lemma PathPrinted(path: string, defaultPath: Option<string>)
    requires path != ""
    ensures UnixPathOf(Some(UnixSpec(path)), defaultPath) == Some(path)
  {
    var s := UnixSpec(path);
    assert s[..5] == UNIX_PREFIX && s[5..] == path;
    NotANumber(s, UNIX_PREFIX);
  }

  lemma TCPIsNotUnix(host: string, port: Long, defaultPath: Option<string>)
    requires port >= 0
    ensures UnixPathOf(Some(TCPSpec(host, port)), defaultPath) == None
  {
    var s := TCPSpec(host, port);
    assert s[..4] == TCP_PREFIX;
    NotANumber(s, TCP_PREFIX);
    NotUnix(s);
  }

  /** Printing what was parsed from a printed specification gives the same specification, for
      every specification and every default. */
  lemma SpecIdempotent(spec: Option<string>, defaultPort: Long, defaultPath: Option<string>)
    requires defaultPath != Some("")
    ensures var printed := SpecOf(spec, defaultPort, defaultPath);
            printed.Some? ==> SpecOf(printed, defaultPort, defaultPath) == printed
  {
    var path, address := UnixPathOf(spec, defaultPath), AddressOf(spec, defaultPort);
    if path.Some? {
      PathPrinted(path.value, defaultPath);
    } else if address.Address? {
      AddressPrinted(address.host, address.port, defaultPort);
      TCPIsNotUnix(address.host, address.port, defaultPath);
    }
  }

  /** What a specification with a host and a port is parsed to. */
  lemma HostSet(host: string, port: Long, defaultPort: Long, defaultPath: Option<string>)
    requires host != "" && port >= 1
    ensures UnixPathOf(Some(TCPSpec(host, port)), defaultPath) == None && TCPSpec(host, port) != ""
    ensures AddressOf(Some(TCPSpec(host, port)), defaultPort).Address? <==> port != 1 || defaultPort >= 1
    ensures port >= 2 ==> AddressOf(Some(TCPSpec(host, port)), defaultPort) == Address(host, port)
  {
    AddressPrinted(host, port, defaultPort);
    TCPIsNotUnix(host, port, defaultPath);
  }

  // ----- Setting an endpoint -----

  datatype State = State(
    spec: Option<string>, defaultTCPPort: Long, defaultUnixPath: Option<string>, isUnix: bool, isTCP: bool)
  {
    predicate UnixRight() {
      isUnix == UnixPathOf(spec, defaultUnixPath).Some?
    }

    predicate TCPRight() {
      isTCP == AddressOf(spec, defaultTCPPort).Address?
    }

    /** The flags are what parsing the specification again would give. */
    predicate Agreed() {
      UnixRight() && TCPRight()
    }

    function Recomputed(): (e: State)
      ensures e.Agreed()
    {
      this.(isUnix := UnixPathOf(spec, defaultUnixPath).Some?, isTCP := AddressOf(spec, defaultTCPPort).Address?)
    }
  }

  /** The flags that an endpoint had do not matter when they are computed again. */
  lemma RecomputedSame(e: State, f: State)
    requires e.spec == f.spec && e.defaultTCPPort == f.defaultTCPPort && e.defaultUnixPath == f.defaultUnixPath
    ensures e.Recomputed() == f.Recomputed()
  {
  }

  /** What can be done to an endpoint: the three forms of setSpec, the two defaults, operator= and validateSpec. */
  datatype Setter =
    | ByString(s: string)
    | ByPort(port: Long)
    | ByHost(host: string, port: Long)
    | DefaultPort(port: Long)
    | DefaultPath(path: string)
    | Assigned(other: State)
    | Validated
  {
    /** setSpec for a host and a port takes for granted that the endpoint is a TCP one. */
    predicate TakesForGranted() {
      ByHost? && host != "" && port >= 1
    }
  }

  /** An empty string is none. */
  function Given(s: string): (r: Option<string>)
    ensures r != Some("")
  {
    if s == "" then None else Some(s)
  }

  function Apply(e: State, op: Setter): State {
    match op
    case ByString(s) => e.(spec := Given(s)).Recomputed()
    case ByPort(port) => e.(spec := Some(Printed(if port >= 0 then port else 0))).Recomputed()
    case ByHost(host, port) =>
      if op.TakesForGranted() then e.(spec := Some(TCPSpec(host, port)), isUnix := false, isTCP := true)
      else e.(spec := None).Recomputed()
    case DefaultPort(port) => e.(defaultTCPPort := port, isTCP := AddressOf(e.spec, port).Address?)
    case DefaultPath(path) =>
      e.(defaultUnixPath := Given(path), isUnix := UnixPathOf(e.spec, Given(path)).Some?)
    case Assigned(other) => other.Recomputed()
    case Validated => e.Recomputed()
  }

  function Run(e: State, ops: seq<Setter>): State
    decreases |ops|
  {
    if ops == [] then e else Apply(Run(e, ops[..|ops| - 1]), ops[|ops| - 1])
  }

  /** The last setter that has to do with the TCP flag. */
  function LastTelling(ops: seq<Setter>): Option<Setter>
    decreases |ops|
  {
    if ops == [] then None
    else if ops[|ops| - 1].DefaultPath? then LastTelling(ops[..|ops| - 1])
    else Some(ops[|ops| - 1])
  }

  /** Whatever was set, the Unix flag is right. */
  lemma UnixStaysRight(e: State, op: Setter)
    requires e.UnixRight()
    ensures Apply(e, op).UnixRight()
  {
    if op.TakesForGranted() {
      TCPIsNotUnix(op.host, op.port, e.defaultUnixPath);
    }
  }

  lemma HostFlag(e: State, op: Setter)
    requires op.TakesForGranted()
    ensures Apply(e, op).TCPRight() <==> op.port != 1 || e.defaultTCPPort >= 1
  {
    AddressPrinted(op.host, op.port, e.defaultTCPPort);
  }

  /** Over every sequence of setters: the flags agree with parsing exactly if the last setter that has
      to do with the TCP flag was not a host with port 1 while there is no default port. */
  lemma {:induction false} RunAgreed(e: State, ops: seq<Setter>)
    requires e.Agreed()
    ensures Run(e, ops).UnixRight()
    ensures var last := LastTelling(ops);
            Run(e, ops).Agreed() <==>
            !(last.Some? && last.value.TakesForGranted() && last.value.port == 1 && Run(e, ops).defaultTCPPort < 1)
    decreases |ops|
  {
    if ops != [] {
      var before, op := ops[..|ops| - 1], ops[|ops| - 1];
      RunAgreed(e, before);
      UnixStaysRight(Run(e, before), op);
      if op.TakesForGranted() {
        HostFlag(Run(e, before), op);
      }
    }
  }

  // ----- The endpoint -----

  class ChannelEndPoint {
    var defaultTCPPort: Long
    var defaultUnixPath: Option<string>
    var spec: Option<string>
    var isUnix: bool
    var isTCP: bool

    ghost function Current(): State
      reads this
    {
      State(spec, defaultTCPPort, defaultUnixPath, isUnix, isTCP)
    }

    ghost predicate Valid()
      reads this
    {
      spec != Some("") && defaultUnixPath != Some("") && Current().UnixRight()
    }

    /** The flags are what parsing the specification again would give. */
    ghost predicate Agreed()
      reads this
    {
      Current().Agreed()
    }

    constructor (s: string)
      ensures Valid() && Agreed() && spec == Given(s) && defaultTCPPort == 0 && defaultUnixPath == None
    {
      defaultTCPPort, defaultUnixPath, spec, isUnix, isTCP := 0, None, None, false, false;
      new;
      SetSpec(s);
    }

    /** setSpec for a string; an empty one takes the specification away. */
    method SetSpec(s: string)
      requires spec != Some("") && defaultUnixPath != Some("")
      modifies this
      ensures Valid() && Agreed() && Current() == Apply(old(Current()), ByString(s))
    {
      if s != "" {
        spec := Some(s);
        isUnix := UnixPathOf(spec, defaultUnixPath).Some?;
        isTCP := AddressOf(spec, defaultTCPPort).Address?;
      } else {
        spec := None;
        isUnix, isTCP := false, false;
      }
    }

    /** setSpec for a port; a negative one disables the endpoint. */
    method SetSpecPort(port: Long)
      requires Valid()
      modifies this
      ensures Valid() && Agreed() && Current() == Apply(old(Current()), ByPort(port))
      ensures port >= 2 ==> AddressOf(spec, defaultTCPPort) == Address("localhost", port) && !isUnix
      ensures port == 1 ==>
        UnixPathOf(spec, defaultUnixPath) == defaultUnixPath &&
        AddressOf(spec, defaultTCPPort) == if defaultTCPPort < 1 then NoAddress else Address("localhost", defaultTCPPort)
      ensures port < 1 ==> !isUnix && !isTCP
    {
      if port >= 0 {
        NumberPrinted(port);
        SetSpec(Printed(port));
      } else {
        Disable();
      }
    }

    method Disable()
      requires Valid()
      modifies this
      ensures Valid() && Agreed() && !isUnix && !isTCP && Current() == Apply(old(Current()), ByPort(0))
    {
      NumberPrinted(0);
      assert Printed(0) == "0";
      SetSpec("0");
    }

    /** setSpec for a host and a port.  The flags are right exactly if the port is not 1 or there is a
        default for it. */
    method SetSpecHost(host: string, port: Long)
      requires Valid()
      modifies this
      ensures Valid() && Current() == Apply(old(Current()), ByHost(host, port))
      ensures host != "" && port >= 1 ==>
        spec == Some(TCPSpec(host, port)) && (Agreed() <==> port != 1 || defaultTCPPort >= 1)
      ensures host == "" || port < 1 ==> Agreed() && spec == None
      ensures host != "" && port >= 2 ==> AddressOf(spec, defaultTCPPort) == Address(host, port)
    {
      isUnix, isTCP := false, false;
      if host != "" && port >= 1 {
        spec := Some(TCPSpec(host, port));
        isTCP := true;
        HostSet(host, port, defaultTCPPort, defaultUnixPath);
      } else {
        SetSpec("");
      }
    }

    method SetDefaultTCPPort(port: Long)
      requires Valid()
      modifies this`defaultTCPPort, this`isTCP
      ensures Valid() && Agreed() && Current() == Apply(old(Current()), DefaultPort(port))
    {
      defaultTCPPort := port;
      isTCP := AddressOf(spec, defaultTCPPort).Address?;
    }

    method SetDefaultUnixPath(path: string)
      requires Valid()
      modifies this`defaultUnixPath, this`isUnix
      ensures Valid() && Current() == Apply(old(Current()), DefaultPath(path))
      ensures Agreed() <==> old(Current().TCPRight())
    {
      defaultUnixPath := if path != "" then Some(path) else None;
      isUnix := UnixPathOf(spec, defaultUnixPath).Some?;
    }

    /** operator=. */
    method Assign(other: ChannelEndPoint)
      requires Valid() && other.Valid()
      modifies this
      ensures Valid() && Agreed() && Current() == Apply(old(Current()), Assigned(old(other.Current())))
    {
      ghost var was := other.Current();
      defaultTCPPort, defaultUnixPath, spec := other.defaultTCPPort, other.defaultUnixPath, other.spec;
      RecomputedSame(Current(), was);
      Recompute();
    }

    method Recompute()
      modifies this`isUnix, this`isTCP
      ensures Current() == old(Current()).Recomputed()
    {
      isUnix := UnixPathOf(spec, defaultUnixPath).Some?;
      isTCP := AddressOf(spec, defaultTCPPort).Address?;
    }

    /** validateSpec. */
    method ValidateSpec() returns (valid: bool)
      requires Valid()
      modifies this`isUnix, this`isTCP
      ensures Valid() && Agreed() && Current() == Apply(old(Current()), Validated)
      ensures valid <==> PortOf(spec).Some? || UnixPathOf(spec, defaultUnixPath).Some? || AddressOf(spec, defaultTCPPort).Address?
    {
      Recompute();
      valid := PortOf(spec).Some? || isUnix || isTCP;
    }

    /** getSpec prints by the flag, which is the same as printing by what was parsed. */
    method GetSpec() returns (uri: Option<string>)
      requires Valid()
      ensures uri == SpecOf(spec, defaultTCPPort, defaultUnixPath)
    {
      var path, address := UnixPathOf(spec, defaultUnixPath), AddressOf(spec, defaultTCPPort);
      uri := None;
      if path.Some? || address.Address? {
        if isUnix {
          uri := Some(UnixSpec(path.value));
        } else if address.port >= 1 {
          uri := Some(TCPSpec(address.host, address.port));
        }
      }
    }
  }
}
