/** Which texts `JSON.parse` accepts (RFC 8259), read one unit at a time. */
module JsonSyntax {
  import opened JsText

  const QUOTE: CodeUnit := 34
  const COMMA: CodeUnit := 44
  const COLON: CodeUnit := 58
  const LBRACKET: CodeUnit := 91
  const BACKSLASH: CodeUnit := 92
  const RBRACKET: CodeUnit := 93
  const LBRACE: CodeUnit := 123
  const RBRACE: CodeUnit := 125

  datatype Role = Key | Value

  datatype Escape = Plain | AfterBackslash | Hex(left: nat)

  /** Where the reader stands. `first` says that the container was just opened and may be closed. */
  datatype Place =
    | BeforeValue(first: bool)
    | BeforeKey(first: bool)
    | BeforeColon
    | AfterValue
    | InString(role: Role, escape: Escape)
    | InScalar(text: Text)

  datatype Frame = InObject | InArray

  /** The place, and the containers that are open, the innermost one last. */
  datatype Config = Config(place: Place, stack: seq<Frame>)

  const START := Config(BeforeValue(false), [])

  predicate IsBlank(u: CodeUnit) {
    u == 32 || u == 9 || u == 10 || u == 13
  }

  predicate IsHex(u: CodeUnit) {
    48 <= u <= 57 || 65 <= u <= 70 || 97 <= u <= 102
  }

  /** `"`, `\`, `/`, `b`, `f`, `n`, `r` and `t` */
  predicate IsEscape(u: CodeUnit) {
    u in {34, 92, 47, 98, 102, 110, 114, 116}
  }

  predicate Top(c: Config, f: Frame) {
    c.stack != [] && c.stack[|c.stack| - 1] == f
  }

  function Push(c: Config, f: Frame, place: Place): Config {
    Config(place, c.stack + [f])
  }

  function Pop(c: Config): Config
    requires c.stack != []
  {
    Config(AfterValue, c.stack[..|c.stack| - 1])
  }

  function At(c: Config, place: Place): Option<Config> {
    Some(Config(place, c.stack))
  }

  function StringStep(c: Config, role: Role, escape: Escape, u: CodeUnit): Option<Config> {
    match escape
    case Plain =>
      if u == QUOTE then At(c, if role == Key then BeforeColon else AfterValue)
      else if u == BACKSLASH then At(c, InString(role, AfterBackslash))
      else if u < 32 then None
      else Some(c)
    case AfterBackslash =>
      if IsEscape(u) then At(c, InString(role, Plain))
      else if u == 117 then At(c, InString(role, Hex(4)))
      else None
    case Hex(left) =>
      if !IsHex(u) then None
      else if left <= 1 then At(c, InString(role, Plain))
      else At(c, InString(role, Hex(left - 1)))
  }

  function AfterStep(c: Config, u: CodeUnit): Option<Config> {
    if IsBlank(u) then At(c, AfterValue)
    else if u == COMMA && Top(c, InObject) then At(c, BeforeKey(false))
    else if u == COMMA && Top(c, InArray) then At(c, BeforeValue(false))
    else if u == RBRACE && Top(c, InObject) then Some(Pop(c))
    else if u == RBRACKET && Top(c, InArray) then Some(Pop(c))
    else None
  }

  /** One unit. `scalar` tells the literals and the numbers. */
  function Step(scalar: Text -> bool, c: Config, u: CodeUnit): Option<Config> {
    match c.place
    case InString(role, escape) => StringStep(c, role, escape, u)
    case AfterValue => AfterStep(c, u)
    case BeforeColon =>
      if IsBlank(u) then Some(c) else if u == COLON then At(c, BeforeValue(false)) else None
    case BeforeKey(first) =>
      if IsBlank(u) then Some(c)
      else if u == QUOTE then At(c, InString(Key, Plain))
      else if u == RBRACE && first && Top(c, InObject) then Some(Pop(c))
      else None
    case BeforeValue(first) =>
      if IsBlank(u) then Some(c)
      else if u == QUOTE then At(c, InString(Value, Plain))
      else if u == LBRACE then Some(Push(c, InObject, BeforeKey(true)))
      else if u == LBRACKET then Some(Push(c, InArray, BeforeValue(true)))
      else if u == RBRACKET && first && Top(c, InArray) then Some(Pop(c))
      else if u in {COLON, COMMA, RBRACE, RBRACKET} then None
      else At(c, InScalar([u]))
    case InScalar(text) =>
      if IsBlank(u) || u in {COMMA, RBRACE, RBRACKET} then
        if scalar(text) then AfterStep(c, u) else None
      else if u in {QUOTE, COLON, LBRACE, LBRACKET} then None
      else At(c, InScalar(text + [u]))
  }

  predicate Final(scalar: Text -> bool, c: Config) {
    c.stack == [] && (c.place == AfterValue || (c.place.InScalar? && scalar(c.place.text)))
  }

  function Reach(scalar: Text -> bool, c: Config, t: Text): Option<Config>
    decreases |t|
  {
    if t == [] then Some(c)
    else
      var next := Step(scalar, c, t[0]);
      if next.None? then None else Reach(scalar, next.value, t[1..])
  }

  predicate AcceptsFrom(scalar: Text -> bool, c: Config, t: Text) {
    var end := Reach(scalar, c, t);
    end.Some? && Final(scalar, end.value)
  }

  predicate Accepts(scalar: Text -> bool, t: Text) {
    AcceptsFrom(scalar, START, t)
  }

  lemma {:induction false} ReachAppend(scalar: Text -> bool, c: Config, a: Text, b: Text)
    ensures Reach(scalar, c, a + b)
      == if Reach(scalar, c, a).None? then None else Reach(scalar, Reach(scalar, c, a).value, b)
    decreases |a|
  {
    if a == [] {
      assert a + b == b;
    } else {
      assert (a + b)[0] == a[0] && (a + b)[1..] == a[1..] + b;
      var next := Step(scalar, c, a[0]);
      if next.Some? {
        ReachAppend(scalar, next.value, a[1..], b);
      }
    }
  }

  /** Two places that the same units lead through together, and that no text leaves in the same way. */
  predicate Apart(p: Place, q: Place) {
    || (p.InString? && q.InString? && p.role != q.role && p.escape == q.escape)
    || (p == BeforeKey(false) && q == BeforeValue(false)) || (q == BeforeKey(false) && p == BeforeValue(false))
    || (p == BeforeColon && q == AfterValue) || (q == BeforeColon && p == AfterValue)
  }

  lemma ApartStays(scalar: Text -> bool, c: Config, d: Config, u: CodeUnit)
    requires Apart(c.place, d.place)
    ensures Step(scalar, c, u).Some? && Step(scalar, d, u).Some? ==>
      Apart(Step(scalar, c, u).value.place, Step(scalar, d, u).value.place)
  { }

  lemma {:induction false} ApartNeverAccept(scalar: Text -> bool, c: Config, d: Config, t: Text)
    requires Apart(c.place, d.place)
    ensures !(AcceptsFrom(scalar, c, t) && AcceptsFrom(scalar, d, t))
    decreases |t|
  {
    if t != [] {
      var x, y := Step(scalar, c, t[0]), Step(scalar, d, t[0]);
      ApartStays(scalar, c, d, t[0]);
      if x.Some? && y.Some? {
        ApartNeverAccept(scalar, x.value, y.value, t[1..]);
      }
    }
  }

  /** At the same place with different containers open, one unit leads to the same place with different
      containers open, or apart. */
  lemma StacksStayDifferent(scalar: Text -> bool, c: Config, d: Config, u: CodeUnit)
    requires c.place == d.place && c.stack != d.stack
    ensures var x, y := Step(scalar, c, u), Step(scalar, d, u);
      x.Some? && y.Some? ==>
        (x.value.place == y.value.place && x.value.stack != y.value.stack) || Apart(x.value.place, y.value.place)
  {
    PopInjective(c, d);
    PushInjective(c.stack, d.stack);
  }

  lemma PopInjective(c: Config, d: Config)
    requires c.stack != d.stack
    ensures forall f :: Top(c, f) && Top(d, f) ==> Pop(c).stack != Pop(d).stack
  {
    forall f | Top(c, f) && Top(d, f) ensures Pop(c).stack != Pop(d).stack {
      assert c.stack == Pop(c).stack + [f] && d.stack == Pop(d).stack + [f];
    }
  }

  lemma PushInjective(s: seq<Frame>, t: seq<Frame>)
    requires s != t
    ensures forall f :: s + [f] != t + [f]
  {
    forall f ensures s + [f] != t + [f] {
      assert (s + [f])[..|s|] == s && (t + [f])[..|t|] == t;
    }
  }

  lemma {:induction false} SamePlaceSameStack(scalar: Text -> bool, c: Config, d: Config, t: Text)
    requires c.place == d.place && AcceptsFrom(scalar, c, t) && AcceptsFrom(scalar, d, t)
    ensures c == d
    decreases |t|
  {
    if c.stack != d.stack && t != [] {
      var x, y := Step(scalar, c, t[0]).value, Step(scalar, d, t[0]).value;
      StacksStayDifferent(scalar, c, d, t[0]);
      if Apart(x.place, y.place) {
        ApartNeverAccept(scalar, x, y, t[1..]);
      } else {
        SamePlaceSameStack(scalar, x, y, t[1..]);
      }
    }
  }

  /** What is left of a text after a point inside a string tells where that string stood: two such points
      accept the same rest only in the same containers and in the same role. */
  lemma RestTellsConfig(scalar: Text -> bool, c: Config, d: Config, t: Text)
    requires c.place.InString? && d.place.InString? && c.place.escape == d.place.escape
    requires AcceptsFrom(scalar, c, t) && AcceptsFrom(scalar, d, t)
    ensures c == d
  {
    if c.place == d.place {
      SamePlaceSameStack(scalar, c, d, t);
    } else {
      ApartNeverAccept(scalar, c, d, t);
    }
  }

  /** Units that a string takes as they are. */
  predicate IsInk(u: CodeUnit) {
    u >= 32 && u != QUOTE && u != BACKSLASH
  }

  lemma {:induction false} InkStaysInString(scalar: Text -> bool, c: Config, t: Text)
    requires c.place.InString? && c.place.escape == Plain && forall i :: 0 <= i < |t| ==> IsInk(t[i])
    ensures Reach(scalar, c, t) == Some(c)
  {
    if t != [] {
      InkStaysInString(scalar, c, t[1..]);
    }
  }
}
