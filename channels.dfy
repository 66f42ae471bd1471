/** The destination channel: how `/news` normalises what the admin typed
    (bot.py) and how the dispatchers read it back from the settings. */
module Channels {
  import opened Outcomes
  import opened Strings
  import opened Numbers

  /** A stored `news_channel` value: an integer chat id or a `@username`. */
  datatype Value = IntVal(n: int) | StrVal(s: string)

  const ChannelKey := "news_channel"

  /** The channel argument of `/news`: the words after the command, joined
      with single spaces and stripped. */
  function ChannelInput(text: string): (r: string)
    ensures r != [] ==> !IsSpace(r[0]) && !IsSpace(r[|r| - 1])
    ensures Words(r) == (if |Words(text)| > 0 then Words(text)[1..] else [])
    ensures r == Join(if |Words(text)| > 0 then Words(text)[1..] else [], " ")
  {
    var words := Words(text);
    var rest := if |words| > 0 then words[1..] else [];
    assert forall k :: 0 <= k < |rest| ==> rest[k] == words[k + 1];
    StripJoinWords(rest);
    WordsOfJoin(rest);
    Strip(Join(rest, " "))
  }

  /** The value `/news` stores: an input starting with `-100` becomes its
      integer (ValueError when `int()` rejects it); any other input gets a
      leading `@` unless it has one. */
  function NormalizeChannel(input: string): (r: Result<Value>)
    ensures r.Raised? ==> "-100" <= input && ParseInt(input).None? && r.error == ValueError
    ensures r.Returned? && r.value.IntVal? ==> "-100" <= input && ParseInt(input) == Some(r.value.n)
    ensures r.Returned? && r.value.StrVal? ==>
      !("-100" <= input) && "@" <= r.value.s && r.value.s == (if "@" <= input then input else "@" + input)
  {
    if "-100" <= input then
      match ParseInt(input)
      case Some(n) => Returned(IntVal(n))
      case None => Raised(ValueError)
    else Returned(StrVal(if "@" <= input then input else "@" + input))
  }

  /** How `/news` shows the stored value: `str(channel)` or the handle. */
  function Display(v: Value): string {
    match v
    case IntVal(n) => IntToString(n)
    case StrVal(s) => s
  }

  /** A stored handle is its own normalisation: normalising twice is
      normalising once. */
  lemma NormalizeHandleIdempotent(input: string)
    requires NormalizeChannel(input).Returned? && NormalizeChannel(input).value.StrVal?
    ensures NormalizeChannel(Display(NormalizeChannel(input).value)) == NormalizeChannel(input)
  {
    var s := NormalizeChannel(input).value.s;
    assert s[0] == '@';
    assert !("-100" <= s);
  }

  /** An integer channel shown by `/news` normalises back to itself. */
  lemma NormalizeIntDisplay(n: int)
    requires "-100" <= IntToString(n)
    ensures NormalizeChannel(IntToString(n)) == Returned(IntVal(n))
  {
    ParseIntToString(n);
  }

  /** `int(news_channel)` tried on the stored value, kept as is on failure. */
  function ResolveChannel(v: Value): (r: Value)
    ensures v.IntVal? ==> r == v
    ensures v.StrVal? && ParseInt(v.s).Some? ==> r == IntVal(ParseInt(v.s).value)
    ensures v.StrVal? && ParseInt(v.s).None? ==> r == v
    ensures r.IntVal? && v.StrVal? ==> ParseInt(v.s) == Some(r.n)
    ensures r.StrVal? ==> r == v
  {
    match v
    case IntVal(_) => v
    case StrVal(s) =>
      match ParseInt(s)
      case Some(n) => IntVal(n)
      case None => v
  }

  lemma ParseIntRejectsHandle(s: string)
    requires s != [] && s[0] == '@'
    ensures ParseInt(s).None?
  {
    StripKeepsFirst(s);
    assert Strip(s)[0] == '@';
  }

  /** Whatever `/news` stores, the dispatchers send to exactly that chat:
      `int()` leaves stored integers alone and rejects stored handles. */
  lemma ResolveNormalized(input: string)
    requires NormalizeChannel(input).Returned?
    ensures ResolveChannel(NormalizeChannel(input).value) == NormalizeChannel(input).value
  {
    var v := NormalizeChannel(input).value;
    if v.StrVal? {
      ParseIntRejectsHandle(v.s);
    }
  }

  /** `config["news_channel"]` when the config document exists and has it. */
  function ConfiguredChannel(settings: Option<map<string, Value>>): (r: Option<Value>)
    ensures r.Some? <==> settings.Some? && ChannelKey in settings.value
    ensures r.Some? ==> r.value == settings.value[ChannelKey]
  {
    if settings.Some? && ChannelKey in settings.value then Some(settings.value[ChannelKey]) else None
  }

  /** The dispatchers read only `news_channel`: other fields of the config
      document do not matter. */
  lemma ConfiguredChannelReadsOnlyChannel(m: map<string, Value>, k: string, x: Value)
    requires k != ChannelKey
    ensures ConfiguredChannel(Some(m[k := x])) == ConfiguredChannel(Some(m))
  {
  }

  /** The upsert `{"$set": {"news_channel": v}}` on the config document:
      creates it when missing and leaves its other fields alone. */
  function SetChannel(settings: Option<map<string, Value>>, v: Value): (r: Option<map<string, Value>>)
    ensures r.Some? && ConfiguredChannel(r) == Some(v)
    ensures r.value.Keys == (if settings.Some? then settings.value.Keys else {}) + {ChannelKey}
    ensures settings.Some? ==> forall k :: k in settings.value && k != ChannelKey ==> r.value[k] == settings.value[k]
  {
    Some(settings.GetOr(map[])[ChannelKey := v])
  }

  /** Storing a channel twice keeps only the second: the config document
      after two `/news` commands is the one after the last. */
  lemma SetChannelLastWins(settings: Option<map<string, Value>>, v: Value, w: Value)
    ensures SetChannel(SetChannel(settings, v), w) == SetChannel(settings, w)
    ensures ConfiguredChannel(SetChannel(SetChannel(settings, v), w)) == Some(w)
  {
    var once := SetChannel(settings, w).value;
    var twice := SetChannel(SetChannel(settings, v), w).value;
    assert twice.Keys == once.Keys;
    assert forall k :: k in once ==> twice[k] == once[k];
    assert twice == once;
  }
}
