/** The submit handler of src/main.ts: the form is read through `parseForm`, validated, the
    repeat count is derived, and one canvas per scheduler tick is appended to `canvasList`.
    `validateUrl(toUrl(source))` is the parameter `renders`, `parseFloat` the parameter `num`,
    and `getFrame(image)` at the k-th tick is `shots(k)`. */
module Submit {
  import opened Values
  import opened Form
  import opened Timer

  /** The accepted parameters of one conversion. Width and height are None when the
      image's own size is used. */
  datatype Plan = Plan(width: Option<int>, height: Option<int>, duration: int, begin: int,
                       interval: int, source: string)

  /** The three ways the handler ends: `alert("Invalid input")` and return; an exception
      from `toUrl` that abandons the handler before any check; or going on with a plan. */
  datatype Outcome = Rejected | Threw | Accepted(plan: Plan)

  /** `data["?original"]`, used as a condition: true only for a checked box. */
  predicate Original(data: FormData, num: string -> int)
  {
    Get(data, "?original", num) == Bool(true)
  }

  /** A numeric field as an optional number. */
  function NumberOf(f: Field): Option<int>
  {
    if f.Number? then Some(f.n) else None
  }

  /** `data[":width"] || undefined`: a 0 entry counts as absent. */
  function Size(f: Field): Option<int>
  {
    if f.Number? && f.n != 0 then Some(f.n) else None
  }

  /** The entered size in one dimension, forced off when "original" is set. */
  function Dimension(data: FormData, key: string, num: string -> int): Option<int>
  {
    if Original(data, num) then None else Size(Get(data, key, num))
  }

  /** Reference reading of a numeric form entry, straight from `formData.get`: a non-empty
      text entry parses, anything else (no entry, an empty text, a file) is absent. */
  function EntryNumber(e: Option<Entry>, num: string -> int): Option<int>
  {
    match e
    case Some(Text(s)) => if s != "" then Some(num(s)) else None
    case _ => None
  }

  /** Reference reading of a size entry: as a number, with 0 counting as absent. */
  function EntrySize(e: Option<Entry>, num: string -> int): Option<int>
  {
    if EntryNumber(e, num) == Some(0) then None else EntryNumber(e, num)
  }

  /** The values the submit handler reads from the form before validating them. */
  datatype Inputs = Inputs(original: bool, width: Option<int>, height: Option<int>,
                           duration: Option<int>, begin: Option<int>, interval: Option<int>,
                           source: Option<string>)

  /** Reading the form through `parseForm`, stated over the form's own entries: "original"
      is on exactly for the text "on" and then hides whatever size was entered; every
      number comes from a non-empty text entry; the source is the text entry as it is. */
  function Read(data: FormData, num: string -> int): (inputs: Inputs)
    ensures inputs.original <==> Lookup(data, "original") == Some(Text("on"))
    ensures inputs.original ==> inputs.width.None? && inputs.height.None?
    ensures !inputs.original ==> inputs.width == EntrySize(Lookup(data, "width"), num) &&
                                 inputs.height == EntrySize(Lookup(data, "height"), num)
    ensures inputs.duration == EntryNumber(Lookup(data, "duration"), num)
    ensures inputs.begin == EntryNumber(Lookup(data, "begin"), num)
    ensures inputs.interval == EntryNumber(Lookup(data, "interval"), num)
    ensures inputs.source == match Lookup(data, "source")
                             case Some(Text(s)) => Some(s)
                             case _ => None
  {
    assert Name("?original") == "original" && Name(":width") == "width";
    assert Name(":height") == "height" && Name(":duration") == "duration";
    assert Name(":begin") == "begin" && Name(":interval") == "interval";
    assert Name("$source") == "source";
    var source := Get(data, "$source", num);
    Inputs(Original(data, num), Dimension(data, ":width", num), Dimension(data, ":height", num),
           NumberOf(Get(data, ":duration", num)), NumberOf(Get(data, ":begin", num)),
           NumberOf(Get(data, ":interval", num)),
           if source.Str? then Some(source.s) else None)
  }

  /** `btoa`, called by `toUrl`, accepts only characters up to U+00FF. */
  predicate Latin1(s: string)
  {
    forall i :: 0 <= i < |s| ==> s[i] as int <= 0xFF
  }

  /** `toUrl(source)` is evaluated only for a non-empty source, and throws when that source
      holds a character `btoa` refuses. */
  predicate ToUrlThrows(inputs: Inputs)
  {
    inputs.source.Some? && inputs.source.value != "" && !Latin1(inputs.source.value)
  }

  /** The validation. `renders(source)` stands for `validateUrl(toUrl(source))`;
      `source && toUrl(source)` is falsy exactly when the source is missing or empty. */
  function Decide(inputs: Inputs, renders: string -> bool): (r: Outcome)
    // `toUrl` throws before any check is made
    ensures r.Threw? <==> ToUrlThrows(inputs)
    // the size: either "original", or at least one of width and height
    ensures (!ToUrlThrows(inputs) && !inputs.original && inputs.width.None? &&
             inputs.height.None?) ==> r.Rejected?
    // the timings must be present and begin may not come after the end
    ensures (!ToUrlThrows(inputs) &&
             (inputs.duration.None? || inputs.begin.None? || inputs.interval.None?)) ==>
              r.Rejected?
    ensures (!ToUrlThrows(inputs) && inputs.begin.Some? && inputs.duration.Some? &&
             inputs.begin.value > inputs.duration.value) ==> r.Rejected?
    // the source must be present, non-empty and renderable
    ensures inputs.source.None? || inputs.source == Some("") ==> r.Rejected?
    ensures (!ToUrlThrows(inputs) && inputs.source.Some? && !renders(inputs.source.value)) ==>
              r.Rejected?
    // an accepted plan carries what was entered
    ensures r.Accepted? ==>
              r.plan.width == inputs.width && r.plan.height == inputs.height &&
              inputs.duration == Some(r.plan.duration) && inputs.begin == Some(r.plan.begin) &&
              inputs.interval == Some(r.plan.interval) && inputs.source == Some(r.plan.source)
    ensures r.Accepted? ==>
              r.plan.begin <= r.plan.duration && r.plan.source != "" && renders(r.plan.source) &&
              Latin1(r.plan.source) && (inputs.original || r.plan.width.Some? || r.plan.height.Some?)
    // and nothing else rejects
    ensures r.Rejected? ==>
              (!inputs.original && inputs.width.None? && inputs.height.None?) ||
              inputs.duration.None? || inputs.begin.None? || inputs.interval.None? ||
              inputs.source.None? || inputs.source == Some("") ||
              inputs.begin.value > inputs.duration.value || !renders(inputs.source.value)
  {
    if ToUrlThrows(inputs) then Threw
    else if (!inputs.original && inputs.width.None? && inputs.height.None?) ||
       inputs.duration.None? || inputs.begin.None? || inputs.interval.None? ||
       inputs.source.None? || inputs.source.value == "" ||
       inputs.begin.value > inputs.duration.value || !renders(inputs.source.value)
    then Rejected
    else Accepted(Plan(inputs.width, inputs.height, inputs.duration.value, inputs.begin.value,
                       inputs.interval.value, inputs.source.value))
  }

  /** The decision of the submit handler on a form. */
  function Handle(data: FormData, num: string -> int, renders: string -> bool): Outcome
  {
    Decide(Read(data, num), renders)
  }

  /** `Math.floor(a / b)` on the exact quotient of two integers. */
  function FloorDiv(a: int, b: int): (q: int)
    requires b != 0
    ensures b > 0 ==> b * q <= a < b * q + b
    ensures b < 0 ==> b * q >= a > b * q + b
  {
    if b > 0 then a / b else (-a) / (-b)
  }

  /** `repeat = Math.floor((duration - begin) / interval)`. */
  function Repeat(plan: Plan): (r: int)
    requires plan.interval != 0
    ensures plan.interval > 0 ==>
              r * plan.interval <= plan.duration - plan.begin < (r + 1) * plan.interval
    ensures plan.interval > 0 && plan.begin <= plan.duration ==> r >= 0
    ensures plan.interval < 0 && plan.begin <= plan.duration ==> r <= 0
    ensures plan.begin == plan.duration ==> r == 0
  {
    FloorDiv(plan.duration - plan.begin, plan.interval)
  }

  /** The `image.onload` handler: run the timer with the plan's repeat, interval and begin,
      appending `getFrame(image)` to `canvasList` on every tick. `t0` is the clock reading
      when the timer starts, `clock(k)` the reading after the k-th callback and `shots(k)`
      what `getFrame` returns at the k-th callback. Also returns the time each callback was
      due. */
  method Capture<Canvas>(plan: Plan, t0: int, clock: nat -> int, shots: nat -> Canvas)
    returns (canvasList: seq<Canvas>, dues: seq<int>)
    requires plan.interval != 0
    ensures |canvasList| == Callbacks(Repeat(plan))
    ensures forall k :: 0 <= k < |canvasList| ==> canvasList[k] == shots(k)
    ensures |dues| == |canvasList|
    ensures |dues| > 0 ==> dues[0] == t0 + Max(0, plan.begin)
    ensures forall k :: 0 < k < |dues| ==>
              dues[k] == Max(clock(k - 1), Target(t0, plan.begin, plan.interval, k))
  {
    var n := Callbacks(Repeat(plan));
    var timer := new Timer(Repeat(plan), plan.interval, plan.begin, t0);
    canvasList, dues := [], [];
    var k := 0;
    while timer.pending.Some?
      invariant timer.Valid() && timer.origin == t0
      invariant timer.repeat == Repeat(plan) && timer.interval == plan.interval
      invariant timer.begin == plan.begin
      invariant k == timer.calls <= n
      invariant |canvasList| == k
      invariant forall j :: 0 <= j < k ==> canvasList[j] == shots(j)
      invariant |dues| == k
      invariant |dues| > 0 ==> dues[0] == t0 + Max(0, plan.begin)
      invariant forall j :: 0 < j < k ==>
                  dues[j] == Max(clock(j - 1), Target(t0, plan.begin, plan.interval, j))
      invariant timer.pending.Some? ==>
                  timer.pending.value == if k == 0 then t0 + Max(0, plan.begin)
                                         else Max(clock(k - 1), timer.next)
      decreases n - k
    {
      dues := dues + [timer.pending.value];
      canvasList := canvasList + [shots(k)];
      timer.Action(clock(k));
      k := k + 1;
    }
  }

  /** The whole submit: a rejected form, or one abandoned by `toUrl`, captures nothing; an
      accepted one captures one canvas per tick, in tick order, `repeat` of them when the
      interval is positive. What an accepted interval of 0 collects is left unspecified. */
  method OnSubmit<Canvas>(data: FormData, num: string -> int, renders: string -> bool,
                          t0: int, clock: nat -> int, shots: nat -> Canvas)
    returns (outcome: Outcome, canvasList: seq<Canvas>)
    ensures outcome == Handle(data, num, renders)
    ensures !outcome.Accepted? ==> canvasList == []
    ensures outcome.Accepted? && outcome.plan.interval != 0 ==>
              |canvasList| == Callbacks(Repeat(outcome.plan)) &&
              forall k :: 0 <= k < |canvasList| ==> canvasList[k] == shots(k)
    ensures outcome.Accepted? && outcome.plan.interval > 0 ==>
              |canvasList| == Repeat(outcome.plan) ==
              FloorDiv(outcome.plan.duration - outcome.plan.begin, outcome.plan.interval)
  {
    outcome := Handle(data, num, renders);
    if !outcome.Accepted? {
      canvasList := [];
      return;
    }
    var plan := outcome.plan;
    if plan.interval == 0 {
      canvasList :| true;
      return;
    }
    var dues;
    canvasList, dues := Capture(plan, t0, clock, shots);
    if plan.interval > 0 {
      assert plan.begin <= plan.duration;
      assert Repeat(plan) >= 0;
    }
  }
}
