/** The JSON scanner of the guest hook (deploy/kata/pids_hook.c). It finds one member of an
    object without parsing the text. A text is the bytes before the terminating NUL. */
module HookScanner {
  import opened Options
  import Decimal

  datatype Failure =
    | NotAnObject | ControlCharacter | TruncatedString | TruncatedObject | Duplicate | NestingLimit
    | NotAString | TooManyDigits | InvalidLimit

  datatype Result<+T> = Ok(value: T) | Fail(why: Failure)

  const MAX_DEPTH := 128
  const DEFAULT_LIMIT := 512
  const ANNOTATIONS := "annotations"
  const PIDS_LIMIT := "io.codex-dock.pids-limit"

  predicate IsSpace(c: char) {
    c == ' ' || '\t' <= c <= '\r'
  }

  /** The offset of the quote that closes the string whose contents start at `p`. */
  function StringEnd(text: string, p: nat): (r: Result<nat>)
    requires p <= |text|
    ensures r.Ok? ==> p <= r.value < |text| && text[r.value] == '"'
    decreases |text| - p
  {
    if p == |text| then Fail(TruncatedString)
    else if text[p] == '"' then Ok(p)
    else if text[p] < ' ' then Fail(ControlCharacter)
    else if text[p] != '\\' then StringEnd(text, p + 1)
    else if p + 1 == |text| then Fail(TruncatedString)
    else StringEnd(text, p + 2)
  }

  function AfterSpaces(text: string, p: nat): (q: nat)
    requires p <= |text|
    ensures p <= q <= |text| && (q < |text| ==> !IsSpace(text[q]))
    decreases |text| - p
  {
    if p < |text| && IsSpace(text[p]) then AfterSpaces(text, p + 1) else p
  }

  predicate ColonFollows(text: string, p: nat)
    requires p <= |text|
  {
    var q := AfterSpaces(text, p);
    q < |text| && text[q] == ':'
  }

  /** The scan of the text from offset `p`, inside `depth` open containers. */
  function Scan(text: string, p: nat, depth: nat, found: Option<nat>, key: string): (r: Result<Option<nat>>)
    requires p <= |text| && depth > 0 && (found.Some? ==> found.value <= |text|)
    ensures r.Ok? && r.value.Some? ==> r.value.value <= |text|
    decreases |text| - p
  {
    if p == |text| then Fail(TruncatedObject)
    else if text[p] == '"' then
      match StringEnd(text, p + 1)
      case Fail(why) => Fail(why)
      case Ok(end) =>
        if depth == 1 && ColonFollows(text, end + 1) && text[p + 1..end] == key then
          if found.Some? then Fail(Duplicate)
          else Scan(text, end + 1, depth, Some(AfterSpaces(text, AfterSpaces(text, end + 1) + 1)), key)
        else Scan(text, end + 1, depth, found, key)
    else if text[p] == '{' || text[p] == '[' then
      if depth + 1 > MAX_DEPTH then Fail(NestingLimit) else Scan(text, p + 1, depth + 1, found, key)
    else if text[p] == '}' || text[p] == ']' then
      if depth == 1 then Ok(found) else Scan(text, p + 1, depth - 1, found, key)
    else Scan(text, p + 1, depth, found, key)
  }

  function MemberAt(text: string, start: nat, key: string): (r: Result<Option<nat>>)
    requires start <= |text|
    ensures r.Ok? && r.value.Some? ==> r.value.value <= |text|
  {
    if start == |text| || text[start] != '{' then Fail(NotAnObject)
    else Scan(text, start + 1, 1, None, key)
  }

  method SkipString(text: string, start: nat) returns (r: Result<nat>)
    requires start <= |text|
    ensures r == StringEnd(text, start)
  {
    var p := start;
    while p < |text| && text[p] != '"'
      invariant start <= p <= |text|
      invariant StringEnd(text, p) == StringEnd(text, start)
    {
      if text[p] < ' ' {
        return Fail(ControlCharacter);
      }
      if text[p] == '\\' {
        p := p + 1;
        if p == |text| {
          return Fail(TruncatedString);
        }
      }
      p := p + 1;
    }
    r := if p == |text| then Fail(TruncatedString) else Ok(p);
  }

  method SkipSpaces(text: string, start: nat) returns (p: nat)
    requires start <= |text|
    ensures p == AfterSpaces(text, start)
  {
    p := start;
    while p < |text| && IsSpace(text[p])
      invariant start <= p <= |text|
      invariant AfterSpaces(text, p) == AfterSpaces(text, start)
    {
      p := p + 1;
    }
  }

  method FindMember(text: string, start: nat, key: string) returns (r: Result<Option<nat>>)
    requires start <= |text|
    ensures r == MemberAt(text, start, key)
  {
    if start == |text| || text[start] != '{' {
      return Fail(NotAnObject);
    }
    var depth: nat := 1;
    var found: Option<nat> := None;
    var p := start + 1;
    while p < |text|
      invariant start < p <= |text| && 1 <= depth <= MAX_DEPTH
      invariant found.Some? ==> found.value <= |text|
      invariant Scan(text, p, depth, found, key) == MemberAt(text, start, key)
    {
      if text[p] == '"' {
        var open := p + 1;
        var closing := SkipString(text, open);
        if closing.Fail? {
          return Fail(closing.why);
        }
        p := closing.value;
        var next := SkipSpaces(text, p + 1);
        if depth == 1 && next < |text| && text[next] == ':' && p - open == |key| && text[open..p] == key {
          if found.Some? {
            return Fail(Duplicate);
          }
          next := SkipSpaces(text, next + 1);
          found := Some(next);
        }
      } else if text[p] == '{' || text[p] == '[' {
        depth := depth + 1;
        if depth > MAX_DEPTH {
          return Fail(NestingLimit);
        }
      } else if text[p] == '}' || text[p] == ']' {
        depth := depth - 1;
        if depth == 0 {
          return Ok(found);
        }
      }
      p := p + 1;
    }
    r := Fail(TruncatedObject);
  }

  /** The limit written as the decimal string that starts at `p`. */
  function LimitAt(text: string, p: nat): Result<nat>
    requires p <= |text|
  {
    if p == |text| || text[p] != '"' then Fail(NotAString)
    else DigitsAt(text, p + 1, 0, 0)
  }

  function DigitsAt(text: string, p: nat, limit: nat, digits: nat): Result<nat>
    requires p <= |text|
    decreases |text| - p
  {
    if p < |text| && Decimal.IsDigit(text[p]) then
      if digits + 1 > 4 then Fail(TooManyDigits)
      else DigitsAt(text, p + 1, limit * 10 + Decimal.DigitOf(text[p]), digits + 1)
    else if digits == 0 || p == |text| || text[p] != '"' || limit < 64 || limit > 4096 then Fail(InvalidLimit)
    else Ok(limit)
  }

  function LimitOf(state: string): Result<nat> {
    match MemberAt(state, 0, ANNOTATIONS)
    case Fail(why) => Fail(why)
    case Ok(None) => Ok(DEFAULT_LIMIT)
    case Ok(Some(annotations)) =>
      match MemberAt(state, annotations, PIDS_LIMIT)
      case Fail(why) => Fail(why)
      case Ok(None) => Ok(DEFAULT_LIMIT)
      case Ok(Some(p)) => LimitAt(state, p)
  }

  method RequestedLimit(state: string) returns (r: Result<nat>)
    ensures r == LimitOf(state)
    ensures r.Ok? ==> r.value == 512 || 64 <= r.value <= 4096
  {
    var annotations := FindMember(state, 0, ANNOTATIONS);
    if annotations.Fail? {
      return Fail(annotations.why);
    }
    if annotations.value.None? {
      return Ok(DEFAULT_LIMIT);
    }
    var member := FindMember(state, annotations.value.value, PIDS_LIMIT);
    if member.Fail? {
      return Fail(member.why);
    }
    if member.value.None? {
      return Ok(DEFAULT_LIMIT);
    }
    var p := member.value.value;
    if p == |state| || state[p] != '"' {
      return Fail(NotAString);
    }
    p := p + 1;
    var limit: nat, digits: nat := 0, 0;
    while p < |state| && '0' <= state[p] <= '9'
      invariant p <= |state|
      invariant digits > 0 || limit == 0
      invariant DigitsAt(state, p, limit, digits) == LimitAt(state, member.value.value)
    {
      digits := digits + 1;
      if digits > 4 {
        return Fail(TooManyDigits);
      }
      limit := limit * 10 + Decimal.DigitOf(state[p]);
      p := p + 1;
    }
    if digits == 0 || p == |state| || state[p] != '"' || limit < 64 || limit > 4096 {
      return Fail(InvalidLimit);
    }
    r := Ok(limit);
  }
}
