/** Debug-report wiring of the instance wrapper: which kinds of Vulkan debug
    message are subscribed to, at which log level a received message is
    logged, and the tag that opens its log line. */
module DebugReport {
  import opened Wrappers
  import opened Vulkan

  /** The five kinds of debug-report message (`MessageTypes` flags). */
  datatype MessageType = ErrorMessage | WarningMessage | PerformanceWarning | Information | DebugMessage

  /** A set of message kinds, as the binding's `MessageTypes` record. */
  datatype MessageTypes = MessageTypes(
    error: bool,
    warning: bool,
    performanceWarning: bool,
    information: bool,
    debug: bool)

  /** Whether flag `t` is set in `ty`. */
  predicate Has(ty: MessageTypes, t: MessageType) {
    match t
    case ErrorMessage => ty.error
    case WarningMessage => ty.warning
    case PerformanceWarning => ty.performanceWarning
    case Information => ty.information
    case DebugMessage => ty.debug
  }

  /** The log level that stands for each kind of message. */
  function TypeLevel(t: MessageType): Level {
    match t
    case ErrorMessage => Level.Error
    case WarningMessage => Warn
    case PerformanceWarning => Warn
    case Information => Info
    case DebugMessage => Debug
  }

  /** Every flag of `small` is set in `large`. */
  predicate Includes(large: MessageTypes, small: MessageTypes) {
    forall t :: Has(small, t) ==> Has(large, t)
  }

  /** Some flag is set in both. */
  predicate Intersects(a: MessageTypes, b: MessageTypes) {
    exists t :: Has(a, t) && Has(b, t)
  }

  /** Subscriptions derived from the logger's maximum level by `new`: a kind
      of message is subscribed to exactly when the logger lets its level
      through. */
  function MessageTypesFor(maxLevel: LevelFilter): (m: MessageTypes)
    ensures forall t :: Has(m, t) <==> Enables(maxLevel, TypeLevel(t))
  {
    MessageTypes(
      error := Enables(maxLevel, Level.Error),
      warning := Enables(maxLevel, Warn),
      performanceWarning := Enables(maxLevel, Warn),
      information := Enables(maxLevel, Info),
      debug := Enables(maxLevel, Debug))
  }

  /** Raising the logger's maximum level only adds subscriptions. */
  lemma MessageTypesMonotone(lower: LevelFilter, higher: LevelFilter)
    requires FilterRank(lower) <= FilterRank(higher)
    ensures Includes(MessageTypesFor(higher), MessageTypesFor(lower))
  {
  }

  /** A logger that is off subscribes to nothing; one at `Debug` or above
      subscribes to everything. */
  lemma MessageTypesExtremes()
    ensures forall t :: !Has(MessageTypesFor(Off), t)
    ensures forall t :: Has(MessageTypesFor(UpTo(Debug)), t) && Has(MessageTypesFor(UpTo(Trace)), t)
  {
  }

  /** The level at which the debug callback logs a message of kinds `ty`:
      the most severe level among its flags. `None` stands for the
      `unimplemented!()` arm, reached only when no flag is set. */
  function Severity(ty: MessageTypes): (r: Option<Level>)
    ensures r.None? <==> forall t :: !Has(ty, t)
    ensures r.Some? ==> exists t :: Has(ty, t) && TypeLevel(t) == r.value
    ensures r.Some? ==> forall t :: Has(ty, t) ==> LevelRank(r.value) <= LevelRank(TypeLevel(t))
  {
    if ty.error then assert Has(ty, ErrorMessage); Some(Level.Error)
    else if ty.performanceWarning || ty.warning then
      assert Has(ty, PerformanceWarning) || Has(ty, WarningMessage); Some(Warn)
    else if ty.information then assert Has(ty, Information); Some(Info)
    else if ty.debug then assert Has(ty, DebugMessage); Some(Debug)
    else None
  }

  /** A message is of a subscribed kind exactly when the callback logs it at
      a level that the same logger configuration lets through: the
      subscriptions of `new` and the severity of the callback agree. */
  lemma SubscribedIffLogged(ty: MessageTypes, maxLevel: LevelFilter)
    ensures Intersects(ty, MessageTypesFor(maxLevel)) <==>
              Severity(ty).Some? && Enables(maxLevel, Severity(ty).value)
  {
    var m := MessageTypesFor(maxLevel);
    if Severity(ty).Some? && Enables(maxLevel, Severity(ty).value) {
      var t :| Has(ty, t) && TypeLevel(t) == Severity(ty).value;
      assert Has(m, t);
    }
  }

  /** The word each flag contributes to the tag, in the tag's fixed order. */
  function FlagWord(t: MessageType): (r: string)
    ensures |r| == 5 && r[0] == ' '
  {
    match t
    case ErrorMessage => " ERRO"
    case WarningMessage => " WARN"
    case PerformanceWarning => " PERF"
    case Information => " INFO"
    case DebugMessage => " DEBG"
  }

  /** The five words differ already in their second character, so no word
      can be mistaken for another. */
  lemma FlagWordsDistinct(t1: MessageType, t2: MessageType)
    ensures FlagWord(t1)[1] == FlagWord(t2)[1] ==> t1 == t2
  {
  }

  function WordIf(b: bool, t: MessageType): string {
    if b then FlagWord(t) else ""
  }

  /** The tag opening every log line of the callback: "VULKAN" followed by
      one word per set flag, always in the order error, warning,
      performance warning, information, debug. */
  function Tag(ty: MessageTypes): (r: string)
    ensures |r| >= 6 && r[..6] == "VULKAN"
  {
    "VULKAN"
      + WordIf(ty.error, ErrorMessage)
      + WordIf(ty.warning, WarningMessage)
      + WordIf(ty.performanceWarning, PerformanceWarning)
      + WordIf(ty.information, Information)
      + WordIf(ty.debug, DebugMessage)
  }

  /** Consumes `FlagWord(t)` at the head of `s`, if it is there. */
  function TakeWord(s: string, t: MessageType): (r: (bool, string))
    ensures r.0 ==> s == FlagWord(t) + r.1
    ensures !r.0 ==> r.1 == s
  {
    var w := FlagWord(t);
    if |w| <= |s| && s[..|w|] == w then (true, s[|w|..]) else (false, s)
  }

  /** Reads the flags back from a tag; `None` when `s` is not a tag. */
  function ParseTag(s: string): Option<MessageTypes> {
    if |s| < 6 || s[..6] != "VULKAN" then None
    else
      var (e, s1) := TakeWord(s[6..], ErrorMessage);
      var (w, s2) := TakeWord(s1, WarningMessage);
      var (p, s3) := TakeWord(s2, PerformanceWarning);
      var (i, s4) := TakeWord(s3, Information);
      var (d, s5) := TakeWord(s4, DebugMessage);
      if s5 == "" then Some(MessageTypes(e, w, p, i, d)) else None
  }

  /** Taking word `t` off a string that starts with the words of later
      flags only (or nothing) fails and leaves the string as it is; taking it
      off a string that starts with it succeeds. */
  lemma TakeWordOf(b: bool, t: MessageType, rest: string, next: MessageType)
    requires rest != "" ==>
      |rest| >= 2 && rest[1] == FlagWord(next)[1] && FlagWord(next)[1] != FlagWord(t)[1]
    ensures TakeWord(WordIf(b, t) + rest, t) == (b, rest)
  {
    var s := WordIf(b, t) + rest;
    if b {
      assert s[..|FlagWord(t)|] == FlagWord(t);
      assert s[|FlagWord(t)|..] == rest;
    } else {
      assert s == rest;
      if rest != "" && |FlagWord(t)| <= |s| {
        assert s[..|FlagWord(t)|][1] == s[1];
        assert s[..|FlagWord(t)|] != FlagWord(t);
      }
    }
  }

  /** The tag loses nothing: reading it back gives the flags it was made
      from, so two messages with different flags get different tags. */
  lemma {:induction false} TagRoundTrip(ty: MessageTypes)
    ensures ParseTag(Tag(ty)) == Some(ty)
  {
    var s5 := "";
    var s4 := WordIf(ty.debug, DebugMessage) + s5;
    var s3 := WordIf(ty.information, Information) + s4;
    var s2 := WordIf(ty.performanceWarning, PerformanceWarning) + s3;
    var s1 := WordIf(ty.warning, WarningMessage) + s2;
    var s0 := WordIf(ty.error, ErrorMessage) + s1;
    assert Tag(ty) == "VULKAN" + s0;
    assert ("VULKAN" + s0)[6..] == s0;
    TakeWordOf(ty.debug, DebugMessage, s5, DebugMessage);
    TakeWordOf(ty.information, Information, s4, DebugMessage);
    TakeWordOf(ty.performanceWarning, PerformanceWarning, s3, if ty.information then Information else DebugMessage);
    TakeWordOf(ty.warning, WarningMessage, s2,
      if ty.performanceWarning then PerformanceWarning else if ty.information then Information else DebugMessage);
    TakeWordOf(ty.error, ErrorMessage, s1,
      if ty.warning then WarningMessage else if ty.performanceWarning then PerformanceWarning
      else if ty.information then Information else DebugMessage);
  }

  lemma SplitConcat(a: string, b: string)
    ensures (a + b)[..|a|] == a && (a + b)[|a|..] == b
  {
  }

  /** A debug-report message as the binding hands it to the callback. */
  datatype Message = Message(ty: MessageTypes, layerPrefix: string, description: string)

  /** The record `log!` is asked to emit: a level and the formatted line.
      Whether the logger then drops it for its level is not modelled. */
  datatype LogRecord = LogRecord(level: Level, text: string)

  /** The debug callback: log the message at its severity, under a line
      made of the tag, the layer prefix and the description. Panics through
      `unimplemented!()` when the message has no flag. */
  function OnMessage(msg: Message): (r: Run<LogRecord>)
    ensures r.Panicked? <==> forall t :: !Has(msg.ty, t)
    ensures r.Returned? ==> Severity(msg.ty) == Some(r.value.level)
    ensures r.Returned? ==> |Tag(msg.ty)| <= |r.value.text|
    ensures r.Returned? ==> ParseTag(r.value.text[..|Tag(msg.ty)|]) == Some(msg.ty)
    ensures r.Returned? ==>
      r.value.text[|Tag(msg.ty)|..] == " @ " + msg.layerPrefix + " \t=> " + msg.description
  {
    match Severity(msg.ty)
    case None => Panicked
    case Some(level) =>
      var tag, rest := Tag(msg.ty), " @ " + msg.layerPrefix + " \t=> " + msg.description;
      SplitConcat(tag, rest);
      TagRoundTrip(msg.ty);
      Returned(LogRecord(level, tag + rest))
  }
}
