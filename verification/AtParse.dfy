// The parser of AT commands: a state machine over the characters of a zero-terminated string.

module AtParse {

  const NUL := 0 as char
  const CR := 13 as char
  const QUOTE := '"'
  const NAME_LENGTH := 16
  const MAX_PARAMS := 16

  datatype Kind = StringType | IntegerType

  // The kind of a parameter and the offset of its first character.
  datatype Place = Place(kind: Kind, pos: int)

  // Overrun: the next parameter would be written behind the record, where the code has no bound.
  datatype Result = Error | Overrun | Command(name: string, places: seq<Place>)

  predicate Upper(c: char) { 'A' <= c <= 'Z' }
  predicate Digit(c: char) { '0' <= c <= '9' }
  predicate Ends(c: char) { c == CR || c == NUL }
  predicate Begins(c: char) { c == QUOTE || Digit(c) }

  // --- the machine as functions ----------------------------------------------------------------------

  // What the machine answers when u, the zero included, is still to be read, pos characters having been
  // read, with the name and the places collected so far.  One function for each status.

  function AtPlus(u: string, pos: nat, name: string): Result
    decreases |u|
  {
    if u == "" then Error
    else if Upper(u[0]) then
      if |name| + 1 >= NAME_LENGTH - 1 then Error else AtPlus(u[1..], pos + 1, name + [u[0]])
    else if u[0] == '=' then AtStart(u[1..], pos + 1, name, [])
    else if Ends(u[0]) then AtDone(u[1..], name)
    else Error
  }

  function AtDone(u: string, name: string): Result { if u == "" then Error else Command(name, []) }

  function AtStart(u: string, pos: nat, name: string, places: seq<Place>): Result
    decreases |u|
  {
    if u == "" || !Begins(u[0]) then Error
    else if |places| >= MAX_PARAMS then Overrun
    else if u[0] == QUOTE then AtString(u[1..], pos + 1, name, places + [Place(StringType, pos)])
    else AtInt(u[1..], pos + 1, name, places + [Place(IntegerType, pos)])
  }

  function AtString(u: string, pos: nat, name: string, places: seq<Place>): Result
    decreases |u|
  {
    if u == "" then Error
    else if u[0] == QUOTE then AtStringEnd(u[1..], pos + 1, name, places)
    else AtString(u[1..], pos + 1, name, places)
  }

  function AtStringEnd(u: string, pos: nat, name: string, places: seq<Place>): Result
    decreases |u|
  {
    if u == "" then Error
    else if u[0] == ',' then AtStart(u[1..], pos + 1, name, places)
    else if Ends(u[0]) then Command(name, places)
    else Error
  }

  function AtInt(u: string, pos: nat, name: string, places: seq<Place>): Result
    decreases |u|
  {
    if u == "" then Error
    else if u[0] == ',' then AtStart(u[1..], pos + 1, name, places)
    else if Ends(u[0]) then Command(name, places)
    else if Digit(u[0]) then AtInt(u[1..], pos + 1, name, places)
    else Error
  }

  function Answer(t: string): Result {
    if |t| >= 1 && t[0] == '+' then AtPlus(t[1..], 1, "")
    else if |t| >= 3 && t[0] == 'A' && t[1] == 'T' && t[2] == '+' then AtPlus(t[3..], 3, "")
    else Error
  }

  // --- the loop --------------------------------------------------------------------------------------------

  datatype Status = Init | GotA | GotT | GotPlus | Start | InString | StringEnd | InInt | Done

  ghost function On(t: string, i: nat, status: Status, name: string, places: seq<Place>): Result
    requires i <= |t|
  {
    match status
    case Init => if i == 0 then Answer(t) else Error
    case GotA => if i == 1 then Answer(t) else Error
    case GotT => if i == 2 then Answer(t) else Error
    case GotPlus => AtPlus(t[i..], i, name)
    case Start => AtStart(t[i..], i, name, places)
    case InString => AtString(t[i..], i, name, places)
    case StringEnd => AtStringEnd(t[i..], i, name, places)
    case InInt => AtInt(t[i..], i, name, places)
    case Done => AtDone(t[i..], name)
  }

  // A C string of n characters, with its zero.
  function Terminated(at: string): string { at + [NUL] }

  // struct ATCMD_DATA
  class Record {
    const name: array<char>
    const param: array<Place>
    var count: nat

    constructor ()
      ensures name.Length == NAME_LENGTH && param.Length == MAX_PARAMS && fresh(name) && fresh(param)
    {
      name, param, count := new char[NAME_LENGTH], new Place[MAX_PARAMS], 0;
    }

    // The memset at the start of the parser
    method Clear()
      requires name.Length == NAME_LENGTH && param.Length == MAX_PARAMS
      modifies this, name, param
      ensures count == 0 && forall k :: 0 <= k < NAME_LENGTH ==> name[k] == NUL
    {
      forall k | 0 <= k < name.Length { name[k] := NUL; }
      forall k | 0 <= k < param.Length { param[k] := Place(StringType, 0); }
      count := 0;
    }

    // A new parameter, if the record has room
    method Put(p: Place) returns (ok: bool)
      requires count <= param.Length
      modifies `count, param
      ensures ok <==> old(count) < param.Length
      ensures count <= param.Length && param[..count] == old(param[..count]) + if ok then [p] else []
    {
      ok := count < param.Length;
      if ok {
        param[count] := p;
        count := count + 1;
      }
    }
  }

  // parse_at_cmd_string.  The code answers 0 or -1; the model answers Overrun where the code writes on.
  datatype Code = Zero | Minus | Overran

  // After the n characters of the name the field holds zeros only.
  ghost predicate Named(field: seq<char>, n: int) {
    |field| == NAME_LENGTH && 0 <= n < NAME_LENGTH && forall k :: n <= k < NAME_LENGTH ==> field[k] == NUL
  }

  // The record and the code say what the answer r is.
  ghost predicate Reports(r: Result, code: Code, field: seq<char>, places: seq<Place>) {
    match r
    case Error => code == Minus
    case Overrun => code == Overran
    case Command(name, ps) => code == Zero && Named(field, |name|) && field[..|name|] == name && places == ps
  }

  method Parse(at: string, ad: Record) returns (code: Code)
    requires ad.name.Length == NAME_LENGTH && ad.param.Length == MAX_PARAMS
    modifies ad, ad.name, ad.param
    ensures ad.count <= MAX_PARAMS && Reports(Answer(Terminated(at)), code, ad.name[..], ad.param[..ad.count])
  {
    var t := Terminated(at);
    var status, n := Init, 0;
    ad.Clear();
    for i := 0 to |t|
      invariant Named(ad.name[..], n) && ad.count <= MAX_PARAMS
      invariant n < NAME_LENGTH - 1
      invariant Answer(t) == On(t, i, status, ad.name[..n], ad.param[..ad.count])
      invariant status == Init <==> i == 0
      invariant status == GotA ==> i == 1 && t[0] == 'A'
      invariant status == GotT ==> i == 2 && t[0] == 'A' && t[1] == 'T'
      invariant status in {Init, GotA, GotT} ==> n == 0
      invariant status in {Init, GotA, GotT, GotPlus, Done} ==> ad.count == 0
    {
      var c := t[i];
      assert t[i..][0] == c && t[i..][1..] == t[i + 1..];
      match status
      case Init =>
        if i == 0 && c == 'A' { status := GotA; }
        else if i == 0 && c == '+' { status := GotPlus; }
        else { return Minus; }
      case GotA => if i == 1 && c == 'T' { status := GotT; } else { return Minus; }
      case GotT => if i == 2 && c == '+' { status := GotPlus; } else { return Minus; }
      case GotPlus =>
        if Upper(c) {
          ghost var name := ad.name[..n];
          ad.name[n] := c;
          n := n + 1;
          assert ad.name[..n] == name + [c];
          if n >= NAME_LENGTH - 1 { return Minus; }
        } else if c == '=' { status := Start; }
        else if Ends(c) { status := Done; }
        else { return Minus; }
      case Start =>
        if !Begins(c) { return Minus; }
        var ok := ad.Put(Place(if c == QUOTE then StringType else IntegerType, i));
        if !ok { return Overran; }
        status := if c == QUOTE then InString else InInt;
      case InString => if c == QUOTE { status := StringEnd; }
      case StringEnd =>
        if c == ',' { status := Start; }
        else if Ends(c) { return Zero; }
        else { return Minus; }
      case InInt =>
        if c == ',' { status := Start; }
        else if Ends(c) { return Zero; }
        else if !Digit(c) { return Minus; }
      case Done => return Zero;
    }
    code := Minus;
  }

  // --- the grammar -------------------------------------------------------------------------------------

  datatype Param = Int(digits: string) | Str(text: string)

  datatype Line = Line(short: bool, name: string, params: seq<Param>)

  predicate AllDigits(s: string) { forall i :: 0 <= i < |s| ==> Digit(s[i]) }
  predicate AllUpper(s: string) { forall i :: 0 <= i < |s| ==> Upper(s[i]) }

  predicate GoodParam(p: Param) {
    match p
    case Int(d) => d != "" && AllDigits(d)
    case Str(s) => QUOTE !in s
  }

  predicate Good(l: Line) {
    |l.name| <= NAME_LENGTH - 2 && AllUpper(l.name) && forall i :: 0 <= i < |l.params| ==> GoodParam(l.params[i])
  }

  function PrintParam(p: Param): string {
    match p
    case Int(d) => d
    case Str(s) => [QUOTE] + s + [QUOTE]
  }

  function PrintParams(ps: seq<Param>): string
    requires ps != []
  {
    if |ps| == 1 then PrintParam(ps[0]) else PrintParam(ps[0]) + [','] + PrintParams(ps[1..])
  }

  function Print(l: Line): string {
    (if l.short then "+" else "AT+") + l.name + (if l.params == [] then "" else ['='] + PrintParams(l.params))
  }

  // Where the parameters of a printed list begin, if the list begins at i.
  function Places(ps: seq<Param>, i: int): seq<Place>
    requires ps != []
  {
    if |ps| == 1 then [PlaceOf(ps[0], i)] else [PlaceOf(ps[0], i)] + Places(ps[1..], i + |PrintParam(ps[0])| + 1)
  }

  function PlaceOf(p: Param, i: int): Place { Place(if p.Str? then StringType else IntegerType, i) }

  // --- parsing what is printed -----------------------------------------------------------------------------

  lemma {:induction false} ReadDigits(d: string, u: string, pos: nat, name: string, places: seq<Place>)
    requires AllDigits(d)
    ensures AtInt(d + u, pos, name, places) == AtInt(u, pos + |d|, name, places)
  {
    if d == "" {
      assert d + u == u;
    } else {
      assert (d + u)[1..] == d[1..] + u;
      ReadDigits(d[1..], u, pos + 1, name, places);
    }
  }

  lemma {:induction false} ReadString(s: string, u: string, pos: nat, name: string, places: seq<Place>)
    requires QUOTE !in s
    ensures AtString(s + [QUOTE] + u, pos, name, places) == AtStringEnd(u, pos + |s| + 1, name, places)
  {
    if s == "" {
      assert (s + [QUOTE] + u)[1..] == u;
    } else {
      assert (s + [QUOTE] + u)[1..] == s[1..] + [QUOTE] + u;
      ReadString(s[1..], u, pos + 1, name, places);
    }
  }

  function AfterParam(p: Param, u: string, pos: nat, name: string, places: seq<Place>): Result {
    if p.Str? then AtStringEnd(u, pos, name, places) else AtInt(u, pos, name, places)
  }

  lemma ReadParam(p: Param, u: string, pos: nat, name: string, places: seq<Place>)
    requires GoodParam(p)
    ensures Begins(PrintParam(p)[0])
    ensures AtStart(PrintParam(p) + u, pos, name, places) ==
      if |places| >= MAX_PARAMS then Overrun
      else AfterParam(p, u, pos + |PrintParam(p)|, name, places + [PlaceOf(p, pos)])
  {
    match p
    case Int(d) =>
      assert (d + u)[1..] == d[1..] + u;
      ReadDigits(d[1..], u, pos + 1, name, places + [Place(IntegerType, pos)]);
    case Str(s) =>
      assert (PrintParam(p) + u)[1..] == s + [QUOTE] + u;
      ReadString(s, u, pos + 1, name, places + [Place(StringType, pos)]);
  }

  // What follows a list of parameters: the end, or a comma and more.
  function Rest(u: string, pos: nat, name: string, places: seq<Place>): Result
    requires u != ""
  {
    if u[0] == ',' then AtStart(u[1..], pos + 1, name, places) else Command(name, places)
  }

  lemma {:induction false} ReadParams(ps: seq<Param>, u: string, pos: nat, name: string, places: seq<Place>)
    requires ps != [] && u != "" && (Ends(u[0]) || u[0] == ',') && |places| <= MAX_PARAMS
    requires forall k :: 0 <= k < |ps| ==> GoodParam(ps[k])
    ensures AtStart(PrintParams(ps) + u, pos, name, places) ==
      if |places| + |ps| > MAX_PARAMS then Overrun else Rest(u, pos + |PrintParams(ps)|, name, places + Places(ps, pos))
    decreases |ps|
  {
    var p := ps[0];
    if |ps| == 1 {
      ReadParam(p, u, pos, name, places);
    } else {
      var rest := PrintParams(ps[1..]) + u;
      PrintMore(ps, u);
      ReadParam(p, [','] + rest, pos, name, places);
      assert ([','] + rest)[1..] == rest;
      if |places| < MAX_PARAMS {
        ReadParams(ps[1..], u, pos + |PrintParam(p)| + 1, name, places + [PlaceOf(p, pos)]);
        PlacesJoin(places, PlaceOf(p, pos), Places(ps[1..], pos + |PrintParam(p)| + 1));
      }
    }
  }

  lemma PrintMore(ps: seq<Param>, u: string)
    requires |ps| > 1
    ensures var p, rest := PrintParam(ps[0]), PrintParams(ps[1..]) + u;
      PrintParams(ps) + u == p + ([','] + rest) == (p + [',']) + rest
  {
    Regroup(PrintParam(ps[0]), [','], PrintParams(ps[1..]), u);
  }

  lemma Regroup(a: string, b: string, c: string, d: string)
    ensures a + b + c + d == a + (b + (c + d)) == a + (b + c) + d && a + b + (c + d) == a + b + c + d
    ensures a + b + c == a + (b + c)
  {
  }

  lemma PlacesJoin(a: seq<Place>, b: Place, c: seq<Place>)
    ensures a + [b] + c == a + ([b] + c)
  {
  }

  lemma {:induction false} ReadName(s: string, u: string, pos: nat, name: string)
    requires AllUpper(s) && |name| + |s| <= NAME_LENGTH - 2
    ensures AtPlus(s + u, pos, name) == AtPlus(u, pos + |s|, name + s)
  {
    if s == "" {
      assert s + u == u && name + s == name;
    } else {
      assert (s + u)[1..] == s[1..] + u;
      ReadName(s[1..], u, pos + 1, name + [s[0]]);
      assert name + [s[0]] + s[1..] == name + s;
    }
  }

  // A line without its AT+ or +.
  function Tail(l: Line): string { l.name + (if l.params == [] then "" else ['='] + PrintParams(l.params)) }

  function Head(l: Line): string { if l.short then "+" else "AT+" }

  lemma TailText(l: Line, u: string)
    requires l.params != []
    ensures Tail(l) + u == l.name + (['='] + (PrintParams(l.params) + u))
  {
    Regroup(l.name, ['='], PrintParams(l.params), u);
  }

  lemma ReadTail(l: Line, u: string, pos: nat)
    requires Good(l) && u != "" && Ends(u[0]) && (l.params == [] ==> |u| > 1)
    ensures AtPlus(Tail(l) + u, pos, "") ==
      if |l.params| > MAX_PARAMS then Overrun
      else Command(l.name, if l.params == [] then [] else Places(l.params, pos + |l.name| + 1))
  {
    assert "" + l.name == l.name;
    if l.params == [] {
      assert Tail(l) == l.name;
      ReadName(l.name, u, pos, "");
    } else {
      var v := PrintParams(l.params) + u;
      TailText(l, u);
      ReadName(l.name, ['='] + v, pos, "");
      assert (['='] + v)[1..] == v;
      ReadParams(l.params, u, pos + |l.name| + 1, l.name, []);
      assert [] + Places(l.params, pos + |l.name| + 1) == Places(l.params, pos + |l.name| + 1);
    }
  }

  // How a text can carry a line: with rest behind it, which begins with CR; or, if the line has
  // parameters, with nothing behind it.
  predicate Carries(at: string, l: Line, rest: string) {
    at == Print(l) + rest && (if rest == "" then l.params != [] else rest[0] == CR)
  }

  lemma HeadTail(l: Line)
    ensures Print(l) == Head(l) + Tail(l)
  {
    assert Head(l) + l.name + "" == Head(l) + (l.name + "");
  }

  lemma WholeLine(t: string, n: nat, l: Line, v: string)
    requires n == |Head(l)| <= |t| && t[n..] == Tail(l) + v && t[0] == Head(l)[0]
    requires !l.short ==> t[1] == 'T' && t[2] == '+'
    ensures t == Print(l) + v
  {
    HeadTail(l);
    assert t[..n] == Head(l);
    assert t == t[..n] + t[n..];
    Regroup(Head(l), Tail(l), v, "");
  }

  lemma AnswerHead(l: Line, v: string)
    ensures Answer(Head(l) + v) == AtPlus(v, |Head(l)|, "")
  {
    assert (Head(l) + v)[|Head(l)|..] == v;
  }

  // Parsing a printed line gives back its name and the kinds and places of its parameters, or overruns
  // the record if it has more than 16.
  lemma ParsePrinted(at: string, l: Line, rest: string)
    requires Good(l) && Carries(at, l, rest)
    ensures Answer(Terminated(at)) ==
      if |l.params| > MAX_PARAMS then Overrun
      else Command(l.name, if l.params == [] then [] else Places(l.params, |Head(l)| + |l.name| + 1))
  {
    var u := rest + [NUL];
    HeadTail(l);
    Regroup(Head(l), Tail(l), rest, [NUL]);
    assert Terminated(at) == Head(l) + (Tail(l) + u);
    AnswerHead(l, Tail(l) + u);
    ReadTail(l, u, |Head(l)|);
  }

  // --- nothing else is accepted --------------------------------------------------------------------------

  lemma {:induction false} IntRest(u: string, pos: nat, name: string, places: seq<Place>) returns (d: string, v: string)
    requires !AtInt(u, pos, name, places).Error?
    ensures u == d + v && AllDigits(d) && v != "" && (Ends(v[0]) || v[0] == ',')
    ensures AtInt(v, pos + |d|, name, places) == AtInt(u, pos, name, places)
  {
    if Digit(u[0]) {
      d, v := IntRest(u[1..], pos + 1, name, places);
      d := [u[0]] + d;
    } else {
      d, v := "", u;
    }
  }

  lemma {:induction false} StringRest(u: string, pos: nat, name: string, places: seq<Place>)
    returns (s: string, v: string)
    requires !AtString(u, pos, name, places).Error?
    ensures u == s + [QUOTE] + v && QUOTE !in s
    ensures AtStringEnd(v, pos + |s| + 1, name, places) == AtString(u, pos, name, places)
  {
    if u[0] == QUOTE {
      s, v := "", u[1..];
    } else {
      s, v := StringRest(u[1..], pos + 1, name, places);
      s := [u[0]] + s;
    }
  }

  // A good parameter first, then the end or a comma and an accepted list.
  lemma OneParam(u: string, pos: nat, name: string, places: seq<Place>) returns (p: Param, v: string)
    requires !AtStart(u, pos, name, places).Error? && |places| < MAX_PARAMS
    ensures GoodParam(p) && u == PrintParam(p) + v && |v| < |u| && v != "" && (Ends(v[0]) || v[0] == ',')
    ensures AtStart(u, pos, name, places) == Rest(v, pos + |PrintParam(p)|, name, places + [PlaceOf(p, pos)])
  {
    if u[0] == QUOTE {
      var s;
      s, v := StringRest(u[1..], pos + 1, name, places + [Place(StringType, pos)]);
      p := Str(s);
      assert u == [QUOTE] + u[1..];
      Regroup([QUOTE], s, [QUOTE], v);
    } else {
      var d;
      d, v := IntRest(u[1..], pos + 1, name, places + [Place(IntegerType, pos)]);
      p := Int([u[0]] + d);
    }
  }

  lemma {:induction false} AllParams(u: string, pos: nat, name: string, places: seq<Place>)
    returns (ps: seq<Param>, v: string)
    requires AtStart(u, pos, name, places).Command?
    ensures ps != [] && (forall k :: 0 <= k < |ps| ==> GoodParam(ps[k]))
    ensures u == PrintParams(ps) + v && v != "" && Ends(v[0])
    decreases |u|
  {
    var p, w := OneParam(u, pos, name, places);
    if Ends(w[0]) {
      ps, v := [p], w;
    } else {
      ps, v := AllParams(w[1..], pos + |PrintParam(p)| + 1, name, places + [PlaceOf(p, pos)]);
      assert ([p] + ps)[1..] == ps && w == [','] + w[1..];
      PrintMore([p] + ps, v);
      ps := [p] + ps;
    }
  }

  // The parameters up to the one for which there is no room.
  lemma {:induction false} FullParams(u: string, pos: nat, name: string, places: seq<Place>)
    returns (ps: seq<Param>, v: string)
    requires AtStart(u, pos, name, places).Overrun? && |places| < MAX_PARAMS
    ensures |ps| == MAX_PARAMS - |places| && (forall k :: 0 <= k < |ps| ==> GoodParam(ps[k]))
    ensures u == PrintParams(ps) + v && More(v)
    decreases |u|
  {
    var p, w := OneParam(u, pos, name, places);
    if |places| == MAX_PARAMS - 1 {
      ps, v := [p], w;
    } else {
      ps, v := FullParams(w[1..], pos + |PrintParam(p)| + 1, name, places + [PlaceOf(p, pos)]);
      assert ([p] + ps)[1..] == ps && w == [','] + w[1..];
      PrintMore([p] + ps, v);
      ps := [p] + ps;
    }
  }

  // A comma and the start of a parameter
  predicate More(v: string) { |v| > 1 && v[0] == ',' && Begins(v[1]) }

  lemma {:induction false} NameRest(u: string, pos: nat, name: string) returns (s: string, v: string)
    requires !AtPlus(u, pos, name).Error? && |name| <= NAME_LENGTH - 2
    ensures u == s + v && AllUpper(s) && |name| + |s| <= NAME_LENGTH - 2 && v != ""
    ensures if v[0] == '=' then AtStart(v[1..], pos + |s| + 1, name + s, []) == AtPlus(u, pos, name)
            else Ends(v[0]) && |v| > 1 && AtPlus(u, pos, name).Command?
    decreases |u|
  {
    if Upper(u[0]) {
      s, v := NameRest(u[1..], pos + 1, name + [u[0]]);
      assert name + [u[0]] + s == name + ([u[0]] + s);
      s := [u[0]] + s;
    } else {
      s, v := "", u;
      assert name + "" == name;
    }
  }

  lemma WholeTail(u: string, pos: nat, short: bool) returns (l: Line, v: string)
    requires AtPlus(u, pos, "").Command?
    ensures Good(l) && l.short == short && u == Tail(l) + v && v != "" && Ends(v[0]) && (l.params == [] ==> |v| > 1)
  {
    var name, w := NameRest(u, pos, "");
    if w[0] == '=' {
      var ps;
      assert "" + name == name;
      ps, v := AllParams(w[1..], pos + |name| + 1, name, []);
      l := Line(short, name, ps);
      TailText(l, v);
      assert w == ['='] + (PrintParams(ps) + v);
    } else {
      l, v := Line(short, name, []), w;
      assert Tail(l) == name;
    }
  }

  // Exactly the texts that carry a line of the grammar with at most 16 parameters are accepted.  In
  // particular a bare name must be ended by CR.
  lemma Accepts(at: string)
    requires NUL !in at
    ensures Answer(Terminated(at)).Command? <==>
      exists l, rest :: Good(l) && |l.params| <= MAX_PARAMS && Carries(at, l, rest)
  {
    if Answer(Terminated(at)).Command? {
      var l, rest := Accepted(at);
      ParsePrinted(at, l, rest);
    }
    if l, rest :| Good(l) && |l.params| <= MAX_PARAMS && Carries(at, l, rest) { ParsePrinted(at, l, rest); }
  }

  // A line with 16 parameters, and the start of one more behind a comma
  predicate Crowds(at: string, l: Line, rest: string) {
    at == Print(l) + rest && |l.params| == MAX_PARAMS && More(rest)
  }

  lemma CrowdedOverruns(at: string, l: Line, rest: string)
    requires Good(l) && Crowds(at, l, rest)
    ensures Answer(Terminated(at)).Overrun?
  {
    var u := rest + [NUL];
    HeadTail(l);
    Regroup(Head(l), Tail(l), rest, [NUL]);
    assert Terminated(at) == Head(l) + (Tail(l) + u);
    AnswerHead(l, Tail(l) + u);
    CrowdedTail(l, u, |Head(l)|);
  }

  lemma CrowdedTail(l: Line, u: string, pos: nat)
    requires Good(l) && |l.params| == MAX_PARAMS && More(u)
    ensures AtPlus(Tail(l) + u, pos, "").Overrun?
  {
    var v := PrintParams(l.params) + u;
    TailText(l, u);
    ReadName(l.name, ['='] + v, pos, "");
    assert (['='] + v)[1..] == v;
    ReadParams(l.params, u, pos + |l.name| + 1, "" + l.name, []);
    PlacesCount(l.params, pos + |l.name| + 1);
  }

  lemma {:induction false} PlacesCount(ps: seq<Param>, i: int)
    requires ps != []
    ensures |Places(ps, i)| == |ps|
    decreases |ps|
  {
    if |ps| > 1 { PlacesCount(ps[1..], i + |PrintParam(ps[0])| + 1); }
  }

  // Every write stays in the record exactly if the text does not go on, behind 16 good parameters, with
  // the start of another; whether the rest is accepted does not matter.
  lemma OverrunExactly(at: string)
    requires NUL !in at
    ensures Answer(Terminated(at)).Overrun? <==> exists l, rest :: Good(l) && Crowds(at, l, rest)
  {
    if l, rest :| Good(l) && Crowds(at, l, rest) { CrowdedOverruns(at, l, rest); }
    if Answer(Terminated(at)).Overrun? {
      var l, rest := Crowded(at);
    }
  }

  lemma Crowded(at: string) returns (l: Line, rest: string)
    requires NUL !in at && Answer(Terminated(at)).Overrun?
    ensures Good(l) && Crowds(at, l, rest)
  {
    var t := Terminated(at);
    var short := t[0] == '+';
    var n := if short then 1 else 3;
    var v;
    l, v := FullTail(t[n..], n, short);
    WholeLine(t, n, l, v);
    CrowdsFrom(at, l, v);
    rest := v[..|v| - 1];
  }

  lemma FullTail(u: string, pos: nat, short: bool) returns (l: Line, v: string)
    requires AtPlus(u, pos, "").Overrun?
    ensures Good(l) && l.short == short && |l.params| == MAX_PARAMS && u == Tail(l) + v && More(v)
  {
    var name, w := NameRest(u, pos, "");
    assert "" + name == name;
    var ps;
    ps, v := FullParams(w[1..], pos + |name| + 1, name, []);
    l := Line(short, name, ps);
    TailText(l, v);
    assert w == ['='] + (PrintParams(ps) + v);
  }

  lemma CrowdsFrom(at: string, l: Line, v: string)
    requires NUL !in at && Terminated(at) == Print(l) + v && |l.params| == MAX_PARAMS && More(v)
    ensures Crowds(at, l, v[..|v| - 1])
  {
    var t, n := Terminated(at), |Print(l)|;
    assert v == t[n..];
    assert v[|v| - 1] == NUL && at == t[..|at|];
    assert v[..|v| - 1] == at[n..];
  }

  // A line of 17 parameters is good and overruns the record.
  lemma SeventeenOverrun()
    ensures var l := Line(true, "A", seq(MAX_PARAMS + 1, _ => Int("1")));
      Good(l) && Answer(Terminated(Print(l))).Overrun?
  {
    var l := Line(true, "A", seq(MAX_PARAMS + 1, _ => Int("1")));
    assert Print(l) + "" == Print(l);
    ParsePrinted(Print(l), l, "");
  }

  lemma Accepted(at: string) returns (l: Line, rest: string)
    requires NUL !in at && Answer(Terminated(at)).Command?
    ensures Good(l) && Carries(at, l, rest)
  {
    var t := Terminated(at);
    var short := t[0] == '+';
    var n := if short then 1 else 3;
    var v;
    l, v := WholeTail(t[n..], n, short);
    WholeLine(t, n, l, v);
    CarriesFrom(at, l, v);
    rest := v[..|v| - 1];
  }

  lemma CarriesFrom(at: string, l: Line, v: string)
    requires NUL !in at && Terminated(at) == Print(l) + v && v != "" && Ends(v[0]) && (l.params == [] ==> |v| > 1)
    ensures Carries(at, l, v[..|v| - 1])
  {
    var t, n := Terminated(at), |Print(l)|;
    assert v == t[n..];
    assert v[|v| - 1] == NUL && at == t[..|at|];
    assert v[..|v| - 1] == at[n..];
    if |v| > 1 { assert v[0] == at[n] && at[n] in at; }
  }

  // --- get_at_param_string -----------------------------------------------------------------------------------

  datatype Extract = NotString | Text(s: string)

  // The text in front of the first quote
  function UpTo(s: string): string { if s == "" || s[0] == QUOTE then "" else [s[0]] + UpTo(s[1..]) }

  function StringAt(at: string, pos: nat): Extract
    requires pos <= |at|
  {
    if pos == |at| || at[pos] != QUOTE then NotString else Text(UpTo(at[pos + 1..]))
  }

  method GetString(at: string, pos: nat) returns (r: Extract)
    requires pos <= |at|
    ensures r == StringAt(at, pos)
  {
    if pos == |at| || at[pos] != QUOTE {
      return NotString;
    }
    var out := "";
    var i := pos + 1;
    while i < |at|
      invariant pos < i <= |at| && UpTo(at[pos + 1..]) == out + UpTo(at[i..])
    {
      if at[i] == QUOTE {
        break;
      }
      assert at[i..][1..] == at[i + 1..];
      out := out + [at[i]];
      i := i + 1;
    }
    r := Text(out);
  }

  lemma {:induction false} UpToQuote(s: string, w: string)
    requires QUOTE !in s
    ensures UpTo(s + [QUOTE] + w) == s
  {
    if s != "" {
      assert (s + [QUOTE] + w)[1..] == s[1..] + [QUOTE] + w;
      UpToQuote(s[1..], w);
    }
  }

  lemma Behind(at: string, i: nat, a: string, b: string)
    requires i <= |at| && at[i..] == a + b
    ensures i + |a| <= |at| && at[i + |a|..] == b
  {
    assert at[i + |a|..] == at[i..][|a|..];
  }

  // The text of the k-th parameter begins at its place.
  lemma {:induction false} TextAtPlace(at: string, i: nat, ps: seq<Param>, u: string, k: nat) returns (w: string)
    requires k < |ps| && i <= |at| && at[i..] == PrintParams(ps) + u
    ensures |Places(ps, i)| == |ps|
    ensures var pos := Places(ps, i)[k].pos; 0 <= pos <= |at| && at[pos..] == PrintParam(ps[k]) + w
    decreases |ps|
  {
    PlacesCount(ps, i);
    if |ps| == 1 {
      w := u;
    } else {
      w := NextPlace(at, i, ps, u);
      if k > 0 { w := TextAtPlace(at, i + |PrintParam(ps[0])| + 1, ps[1..], u, k - 1); }
    }
  }

  lemma NextPlace(at: string, i: nat, ps: seq<Param>, u: string) returns (w: string)
    requires |ps| > 1 && i <= |at| && at[i..] == PrintParams(ps) + u
    ensures at[i..] == PrintParam(ps[0]) + w
    ensures var i' := i + |PrintParam(ps[0])| + 1; i' <= |at| && at[i'..] == PrintParams(ps[1..]) + u
  {
    PrintMore(ps, u);
    w := [','] + (PrintParams(ps[1..]) + u);
    Behind(at, i, PrintParam(ps[0]) + [','], PrintParams(ps[1..]) + u);
  }

  lemma ExtractParam(at: string, pos: nat, p: Param, w: string)
    requires pos <= |at| && GoodParam(p) && at[pos..] == PrintParam(p) + w
    ensures StringAt(at, pos) == if p.Str? then Text(p.text) else NotString
  {
    assert at[pos..][0] == PrintParam(p)[0];
    if p.Str? {
      assert at[pos + 1..] == at[pos..][1..] == p.text + [QUOTE] + w;
      UpToQuote(p.text, w);
    }
  }

  lemma ExtractAt(at: string, i: nat, ps: seq<Param>, u: string, k: nat)
    requires k < |ps| && GoodParam(ps[k]) && i <= |at| && at[i..] == PrintParams(ps) + u
    ensures |Places(ps, i)| == |ps| && 0 <= Places(ps, i)[k].pos <= |at|
    ensures StringAt(at, Places(ps, i)[k].pos) == if ps[k].Str? then Text(ps[k].text) else NotString
  {
    var w := TextAtPlace(at, i, ps, u, k);
    ExtractParam(at, Places(ps, i)[k].pos, ps[k], w);
  }

  lemma ParamsBegin(at: string, l: Line, rest: string)
    requires l.params != [] && Carries(at, l, rest)
    ensures var i := |Head(l)| + |l.name| + 1; i <= |at| && at[i..] == PrintParams(l.params) + rest
  {
    var pre, p := Head(l) + l.name + ['='], PrintParams(l.params);
    assert Print(l) == pre + p;
    assert pre + p + rest == pre + (p + rest);
    Behind(at, 0, pre, p + rest);
  }

  // Parsing a printed line and then extracting each parameter at the place the parser stored gives the
  // texts of its string parameters back, and says of the others that they are no strings.
  lemma ExtractPrinted(at: string, l: Line, rest: string, k: nat)
    requires Good(l) && Carries(at, l, rest) && |l.params| <= MAX_PARAMS && k < |l.params|
    ensures var r := Answer(Terminated(at));
      && r.Command? && r.name == l.name && |r.places| == |l.params| && 0 <= r.places[k].pos <= |at|
      && StringAt(at, r.places[k].pos) == if l.params[k].Str? then Text(l.params[k].text) else NotString
  {
    ParsePrinted(at, l, rest);
    ParamsBegin(at, l, rest);
    ExtractAt(at, |Head(l)| + |l.name| + 1, l.params, rest, k);
  }
}
