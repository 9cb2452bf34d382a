/**
 * The page script of the chat page, without its DOM rendering: the selected model, the
 * engine handle, the send button's disabled flag, the status text, the progress-bar width,
 * the displayed model name, the input field, the browser's key-value store and the chat
 * transcript. The in-browser inference engine is an oracle: engine creation yields a handle
 * or fails, after some progress reports; a chat completion either throws at once or yields
 * a finite sequence of chunks that may end in a thrown error.
 */
module ChatApp {
  import opened Common

  /** The model selected when the store holds no (or an empty) selection. */
  const DefaultModel: string := "Llama-2-7B-chat-hf-q4f16_1-MLC"

  /** Model identifier to display name. */
  const AvailableModels: map<string, string> := map[
    "Llama-2-7B-chat-hf-q4f16_1-MLC" := "Llama 2 7B",
    "Llama-3-8B-Instruct-q4f16_1-MLC" := "Llama 3 8B",
    "Mistral-7B-Instruct-v0.2-q4f16_1-MLC" := "Mistral 7B",
    "phi-2-q4f16_1-MLC" := "Phi 2 (Fast)"
  ]

  /** Key of the stored model selection. */
  const SelectedModelKey: string := "selectedModel"

  const SystemPrompt: string :=
    "You are Nexus AI, a helpful and premium assistant running locally in the browser."
  const InferenceError: string := "Error: Inference failed. Please check console."

  const LoadingStatus: string := "Loading Model..."
  const DownloadingStatus: string := "Downloading model..."
  const ReadyStatus: string := "\U{2705} Ready to Chat"
  const FailedStatus: string := "\U{26A0}\U{FE0F} WebGPU Required"

  datatype Role = System | User | Ai

  /** One transcript entry, or one entry of a prompt sent to the engine. */
  datatype Message = Message(role: Role, content: string)

  /** An opaque engine handle. */
  datatype Engine = Engine(handle: nat)

  /** What `CreateMLCEngine` does once it is called. */
  datatype Creation = Created(engine: Engine) | CreateFailed

  /**
   * What `chat.completions.create` does: throw before streaming, or stream chunks (each with
   * its `delta.content`, possibly missing) and then finish or throw.
   */
  datatype Completion = CreateThrew | Streamed(chunks: seq<Option<string>>, thenThrows: bool)

  /** The page's markup before the script runs. */
  datatype Page = Page(status: string, width: string, sendDisabled: bool, modelName: string, input: string)

  // ----- Start-up selection and display names ---------------------------------------------

  /** The selection at start-up: the stored value unless it is missing or empty. */
  function InitialModel(storage: map<string, string>): (id: string)
    ensures id != ""
    ensures id == DefaultModel || (SelectedModelKey in storage && id == storage[SelectedModelKey])
    ensures SelectedModelKey in storage && storage[SelectedModelKey] != "" ==> id == storage[SelectedModelKey]
  {
    if SelectedModelKey in storage && storage[SelectedModelKey] != "" then storage[SelectedModelKey]
    else DefaultModel
  }

  /** The name shown for a model: its registry name, or else the identifier itself. */
  function DisplayName(id: string): (name: string)
    ensures id in AvailableModels ==> name == AvailableModels[id]
    ensures id !in AvailableModels ==> name == id
    ensures name == "" ==> id == ""
  {
    if id in AvailableModels && AvailableModels[id] != "" then AvailableModels[id] else id
  }

  /** The store key recording that a model finished loading. */
  function CachedFlagKey(id: string): string
  {
    "model_cached_" + id
  }

  // ----- Progress percentage ------------------------------------------------------------

  predicate IsDigit(c: char)
  {
    '0' <= c <= '9'
  }

  /** The end of the longest run of digits starting at `i`. */
  function RunEnd(s: string, i: nat): (j: nat)
    requires i <= |s|
    ensures i <= j <= |s|
    ensures forall k :: i <= k < j ==> IsDigit(s[k])
    ensures j == |s| || !IsDigit(s[j])
    decreases |s| - i
  {
    if i < |s| && IsDigit(s[i]) then RunEnd(s, i + 1) else i
  }

  /**
   * The regular expression /(\d+)%/ tried at each start position from `i` on. At one start
   * position `\d+` first takes the whole digit run and backtracking cannot help, since a
   * shorter run is followed by a digit; so a position matches exactly when it starts a digit
   * run followed by '%'. The captured group is returned.
   */
  function PercentFrom(s: string, i: nat): Option<string>
    requires i <= |s|
    decreases |s| - i
  {
    if i == |s| then None
    else if IsDigit(s[i]) && RunEnd(s, i) < |s| && s[RunEnd(s, i)] == '%' then Some(s[i..RunEnd(s, i)])
    else PercentFrom(s, i + 1)
  }

  /** The first capture group of `text.match(/(\d+)%/)`, if the text matches. */
  function PercentMatch(s: string): Option<string>
  {
    PercentFrom(s, 0)
  }

  /** A digit directly followed by '%' at index `k`. */
  predicate PercentAt(s: string, k: nat)
  {
    k + 1 < |s| && IsDigit(s[k]) && s[k + 1] == '%'
  }

  /**
   * `d` is the leftmost digit run directly followed by '%' in `s`, found at `i`: the whole
   * run (not preceded by a digit), and no digit-then-'%' occurs earlier.
   */
  ghost predicate LeftmostCapture(s: string, i: nat, d: string)
  {
    && |d| > 0
    && i + |d| < |s|
    && s[i..i + |d|] == d
    && (forall k :: 0 <= k < |d| ==> IsDigit(d[k]))
    && s[i + |d|] == '%'
    && (i == 0 || !IsDigit(s[i - 1]))
    && (forall k: nat :: k < i + |d| - 1 ==> !PercentAt(s, k))
  }

  /**
   * `d` is the digit run starting at `j`, not before `i`, directly followed by '%', not
   * preceded by a digit unless it starts at `i`, and no digit-then-'%' occurs from `i` on
   * before it.
   */
  ghost predicate CaptureFrom(s: string, i: nat, j: nat, d: string)
  {
    && i <= j && j + |d| < |s|
    && RunEnd(s, j) == j + |d|
    && d == s[j..RunEnd(s, j)]
    && IsDigit(s[j]) && s[RunEnd(s, j)] == '%'
    && (j == i || !IsDigit(s[j - 1]))
    && (forall k: nat :: i <= k < RunEnd(s, j) - 1 ==> !PercentAt(s, k))
  }

  lemma {:induction false} PercentFromSpec(s: string, i: nat)
    requires i <= |s|
    ensures PercentFrom(s, i).None? <==> forall k: nat :: i <= k ==> !PercentAt(s, k)
    ensures PercentFrom(s, i).Some? ==> exists j: nat :: CaptureFrom(s, i, j, PercentFrom(s, i).value)
    decreases |s| - i
  {
    if i == |s| {
    } else if IsDigit(s[i]) && RunEnd(s, i) < |s| && s[RunEnd(s, i)] == '%' {
      var e := RunEnd(s, i);
      assert PercentAt(s, e - 1);
      forall k: nat | i <= k < e - 1 ensures !PercentAt(s, k) {
        assert IsDigit(s[k + 1]);
      }
      assert CaptureFrom(s, i, i, PercentFrom(s, i).value);
    } else {
      PercentFromSpec(s, i + 1);
      assert i + 1 < |s| && !IsDigit(s[i + 1]) ==> RunEnd(s, i + 1) == i + 1;
      assert !PercentAt(s, i);
      if PercentFrom(s, i + 1).Some? {
        var d := PercentFrom(s, i + 1).value;
        var j: nat :| CaptureFrom(s, i + 1, j, d);
        assert IsDigit(s[i]) ==> RunEnd(s, i) == RunEnd(s, i + 1);
        assert CaptureFrom(s, i, j, d);
      }
    }
  }

  /**
   * The match is exactly the leftmost digit run directly followed by '%', and there is no
   * match exactly when no digit is directly followed by '%'.
   */
  lemma PercentMatchSpec(s: string)
    ensures PercentMatch(s).None? <==> forall k: nat :: !PercentAt(s, k)
    ensures PercentMatch(s).Some? ==> exists i: nat :: LeftmostCapture(s, i, PercentMatch(s).value)
  {
    PercentFromSpec(s, 0);
    if PercentMatch(s).Some? {
      var d := PercentMatch(s).value;
      var j: nat :| CaptureFrom(s, 0, j, d);
      assert forall k :: 0 <= k < |d| ==> IsDigit(d[k]) by {
        forall k | 0 <= k < |d| ensures IsDigit(d[k]) {
          assert d[k] == s[j + k];
        }
      }
      assert LeftmostCapture(s, j, d);
    }
  }

  /** Only one capture can be leftmost, so `PercentMatch` returns it whenever one exists. */
  lemma LeftmostCaptureUnique(s: string, i: nat, d: string)
    requires LeftmostCapture(s, i, d)
    ensures PercentMatch(s) == Some(d)
  {
    PercentMatchSpec(s);
    assert s[i + |d| - 1] == d[|d| - 1];
    assert PercentAt(s, i + |d| - 1);
    var d' := PercentMatch(s).value;
    var i': nat :| LeftmostCapture(s, i', d');
    CaptureDigits(s, i, d);
    CaptureDigits(s, i', d');
    assert PercentAt(s, i' + |d'| - 1);
    assert i + |d| == i' + |d'|;
    assert i == i';
    assert d == s[i..i + |d|] == d';
  }

  lemma CaptureDigits(s: string, i: nat, d: string)
    requires LeftmostCapture(s, i, d)
    ensures forall m :: i <= m < i + |d| ==> IsDigit(s[m])
  {
    forall m | i <= m < i + |d| ensures IsDigit(s[m]) {
      assert s[m] == s[i..i + |d|][m - i];
    }
  }

  /** The progress bar width after one progress report: the match plus "%", else unchanged. */
  function ProgressWidth(width: string, text: string): string
  {
    match PercentMatch(text)
    case Some(d) => d + "%"
    case None => width
  }

  /** The width is never clamped: any digit run before '%' becomes the width, e.g. "250%". */
  lemma ProgressWidthUnclamped(width: string, pre: string, d: string, post: string)
    requires |d| > 0 && forall k :: 0 <= k < |d| ==> IsDigit(d[k])
    requires forall c :: c in pre ==> !IsDigit(c)
    ensures ProgressWidth(width, pre + d + "%" + post) == d + "%"
  {
    var s := pre + d + "%" + post;
    assert s[|pre|..|pre| + |d|] == d;
    forall k: nat | k < |pre| + |d| - 1 ensures !PercentAt(s, k) {
      if k < |pre| {
        assert s[k] == pre[k];
        assert s[k] in pre;
      } else {
        assert s[k + 1] == d[k + 1 - |pre|];
      }
    }
    if |pre| > 0 {
      assert s[|pre| - 1] == pre[|pre| - 1];
      assert s[|pre| - 1] in pre;
    }
    assert LeftmostCapture(s, |pre|, d);
    LeftmostCaptureUnique(s, |pre|, d);
  }

  /** The width after a sequence of progress reports, each handled in order. */
  function WidthAfter(width: string, reports: seq<string>): string
  {
    if reports == [] then width
    else ProgressWidth(WidthAfter(width, reports[..|reports| - 1]), reports[|reports| - 1])
  }

  /**
   * After a run of reports the width is unchanged when no report carried a percentage, and
   * otherwise is the percentage of the last report that carried one.
   */
  lemma {:induction false} WidthAfterSpec(width: string, reports: seq<string>)
    ensures (forall k :: 0 <= k < |reports| ==> PercentMatch(reports[k]).None?) ==> WidthAfter(width, reports) == width
    ensures (exists k :: 0 <= k < |reports| && PercentMatch(reports[k]).Some?) ==>
      exists k :: 0 <= k < |reports| && PercentMatch(reports[k]).Some?
        && WidthAfter(width, reports) == PercentMatch(reports[k]).value + "%"
        && forall j :: k < j < |reports| ==> PercentMatch(reports[j]).None?
  {
    if reports != [] {
      var n := |reports| - 1;
      var init := reports[..n];
      WidthAfterSpec(width, init);
      assert forall k :: 0 <= k < n ==> init[k] == reports[k];
      if PercentMatch(reports[n]).None? && exists k :: 0 <= k < |reports| && PercentMatch(reports[k]).Some? {
        var k :| 0 <= k < |reports| && PercentMatch(reports[k]).Some?;
        assert k < n && PercentMatch(init[k]).Some?;
      }
    }
  }

  // ----- Streamed reply -----------------------------------------------------------------

  /** A chunk's `delta.content`, or "" when it is missing. */
  function Fragment(content: Option<string>): string
  {
    match content
    case Some(t) => t
    case None => ""
  }

  /** The running response after the given chunks: each fragment appended in arrival order. */
  function Accumulated(chunks: seq<Option<string>>): string
  {
    if chunks == [] then "" else Accumulated(chunks[..|chunks| - 1]) + Fragment(chunks[|chunks| - 1])
  }

  /** The fragments joined front to back, an independent statement of what the reply says. */
  function Joined(chunks: seq<Option<string>>): string
  {
    if chunks == [] then "" else Fragment(chunks[0]) + Joined(chunks[1..])
  }

  lemma {:induction false} JoinedAppend(a: seq<Option<string>>, b: seq<Option<string>>)
    ensures Joined(a + b) == Joined(a) + Joined(b)
  {
    if a == [] {
      assert a + b == b;
    } else {
      JoinedAppend(a[1..], b);
      assert (a + b)[1..] == a[1..] + b;
    }
  }

  /** Accumulating fragment by fragment yields the concatenation of all fragments, in order. */
  lemma {:induction false} AccumulatedIsJoined(chunks: seq<Option<string>>)
    ensures Accumulated(chunks) == Joined(chunks)
  {
    if chunks != [] {
      var n := |chunks| - 1;
      AccumulatedIsJoined(chunks[..n]);
      JoinedAppend(chunks[..n], [chunks[n]]);
      assert chunks[..n] + [chunks[n]] == chunks;
    }
  }

  /** The displayed response only grows: an earlier snapshot is a prefix of every later one. */
  lemma {:induction false} AccumulatedGrows(chunks: seq<Option<string>>, i: nat, j: nat)
    requires i <= j <= |chunks|
    ensures Accumulated(chunks[..i]) <= Accumulated(chunks[..j])
    decreases j - i
  {
    if i < j {
      AccumulatedGrows(chunks, i, j - 1);
      assert chunks[..j][..j - 1] == chunks[..j - 1];
    }
  }

  /** What the AI message finally shows after a reply. */
  function FinalAiText(reply: Completion): string
  {
    match reply
    case CreateThrew => InferenceError
    case Streamed(chunks, thenThrows) => if thenThrows then InferenceError else Accumulated(chunks)
  }

  /** The AI message is the error text exactly when something threw; partial text is never kept. */
  lemma FinalAiTextSpec(reply: Completion)
    ensures reply.CreateThrew? || reply.thenThrows ==> FinalAiText(reply) == InferenceError
    ensures reply.Streamed? && !reply.thenThrows ==> FinalAiText(reply) == Joined(reply.chunks)
  {
    if reply.Streamed? {
      AccumulatedIsJoined(reply.chunks);
    }
  }

  // ----- The page state ---------------------------------------------------------------

  class App {
    var selectedModel: string
    var engine: Option<Engine>
    var sendDisabled: bool
    var status: string
    var width: string
    var modelName: string
    var input: string
    var storage: map<string, string>
    var transcript: seq<Message>

    /** Module evaluation: the stored selection (or the default) and no engine yet. */
    constructor (stored: map<string, string>, page: Page)
      ensures selectedModel == InitialModel(stored) && engine == None
      ensures storage == stored && transcript == []
      ensures sendDisabled == page.sendDisabled && status == page.status && width == page.width
      ensures modelName == page.modelName && input == page.input
    {
      selectedModel := InitialModel(stored);
      engine := None;
      storage := stored;
      transcript := [];
      sendDisabled := page.sendDisabled;
      status := page.status;
      width := page.width;
      modelName := page.modelName;
      input := page.input;
    }

    /** The progress callback: the status shows the report, the bar takes its percentage. */
    method OnProgress(text: string)
      modifies this`status, this`width
      ensures status == text && width == ProgressWidth(old(width), text)
    {
      status := text;
      var m := PercentMatch(text);
      if m.Some? {
        width := m.value + "%";
      }
    }

    /**
     * `initEngine`: without a GPU it fails before calling `CreateMLCEngine`; otherwise the
     * engine reports progress and then is created or fails. One attempt, never retried.
     * Returns whether `CreateMLCEngine` was called.
     */
    method InitEngine(gpu: bool, reports: seq<string>, creation: Creation) returns (attempted: bool)
      modifies this`engine, this`status, this`width, this`sendDisabled, this`modelName, this`storage
      ensures attempted == gpu
      ensures gpu && creation.Created? ==>
        && engine == Some(creation.engine)
        && status == ReadyStatus && width == "100%" && !sendDisabled
        && modelName == DisplayName(selectedModel)
        && storage == old(storage)[CachedFlagKey(selectedModel) := "true"]
      ensures !(gpu && creation.Created?) ==>
        && engine == old(engine)
        && status == FailedStatus && sendDisabled
        && width == (if gpu then WidthAfter(old(width), reports) else old(width))
        && modelName == old(modelName) && storage == old(storage)
    {
      status := LoadingStatus;
      attempted := gpu;
      if !gpu {
        status := FailedStatus;
        sendDisabled := true;
        return;
      }
      for i := 0 to |reports|
        modifies this`status, this`width
        invariant width == WidthAfter(old(width), reports[..i])
      {
        assert reports[..i + 1][..i] == reports[..i];
        OnProgress(reports[i]);
      }
      assert reports[..|reports|] == reports;
      match creation
      case Created(e) =>
        engine := Some(e);
        status := ReadyStatus;
        width := "100%";
        sendDisabled := false;
        modelName := DisplayName(selectedModel);
        storage := storage[CachedFlagKey(selectedModel) := "true"];
      case CreateFailed =>
        status := FailedStatus;
        sendDisabled := true;
    }

    /** The synchronous part of the model-change handler, before it awaits `initEngine`. */
    method BeginModelChange(value: string)
      modifies this`selectedModel, this`storage, this`status, this`width, this`sendDisabled, this`engine
      ensures selectedModel == value && storage == old(storage)[SelectedModelKey := value]
      ensures status == DownloadingStatus && width == "0%" && sendDisabled && engine == None
    {
      selectedModel := value;
      storage := storage[SelectedModelKey := value];
      status := DownloadingStatus;
      width := "0%";
      sendDisabled := true;
      engine := None;
    }

    /** The model-change handler: persist the choice, drop the engine, load the new model. */
    method OnModelChange(value: string, gpu: bool, reports: seq<string>, creation: Creation) returns (attempted: bool)
      modifies this
      ensures selectedModel == value && transcript == old(transcript) && input == old(input)
      ensures storage == (if gpu && creation.Created? then old(storage)[SelectedModelKey := value][CachedFlagKey(value) := "true"]
                          else old(storage)[SelectedModelKey := value])
      ensures engine == (if gpu && creation.Created? then Some(creation.engine) else None)
      ensures sendDisabled <==> engine.None?
      ensures status == (if gpu && creation.Created? then ReadyStatus else FailedStatus)
      ensures width == (if gpu && creation.Created? then "100%" else if gpu then WidthAfter("0%", reports) else "0%")
      ensures modelName == (if gpu && creation.Created? then DisplayName(value) else old(modelName))
    {
      BeginModelChange(value);
      attempted := InitEngine(gpu, reports, creation);
    }

    /**
     * `handleSend`. The `.strip` test is always false for a JavaScript string, so the raw
     * input is used untrimmed. Returns the prompt passed to the engine (None when the send is
     * ignored) and the AI message's text as shown: empty right after it is appended, then
     * after each streamed chunk.
     */
    method HandleSend(reply: Completion) returns (prompt: Option<seq<Message>>, frames: seq<string>)
      modifies this`input, this`transcript
      ensures old(input) == "" || old(engine).None? ==>
        prompt == None && frames == [] && input == old(input) && transcript == old(transcript)
      ensures old(input) != "" && old(engine).Some? ==>
        && input == ""
        && prompt == Some([Message(System, SystemPrompt), Message(User, old(input))])
        && transcript == old(transcript) + [Message(User, old(input)), Message(Ai, FinalAiText(reply))]
      ensures |frames| == (if old(input) == "" || old(engine).None? then 0 else if reply.Streamed? then |reply.chunks| + 1 else 1)
      ensures |frames| > 0 ==> frames[0] == ""
      ensures reply.Streamed? ==> forall k :: 0 <= k < |frames| ==> frames[k] == Accumulated(reply.chunks[..k])
    {
      var text := input;
      frames := [];
      if text == "" || engine.None? {
        return None, [];
      }
      input := "";
      transcript := transcript + [Message(User, text)];
      transcript := transcript + [Message(Ai, "")];
      var ai := |transcript| - 1;
      frames := [""];
      prompt := Some([Message(System, SystemPrompt), Message(User, text)]);
      match reply
      case CreateThrew =>
        transcript := transcript[ai := Message(Ai, InferenceError)];
      case Streamed(chunks, thenThrows) =>
        var aiResponse := "";
        for i := 0 to |chunks|
          modifies this`transcript
          invariant aiResponse == Accumulated(chunks[..i])
          invariant |frames| == i + 1
          invariant forall k :: 0 <= k <= i ==> frames[k] == Accumulated(chunks[..k])
          invariant transcript == old(transcript) + [Message(User, text), Message(Ai, aiResponse)]
        {
          assert chunks[..i + 1][..i] == chunks[..i];
          aiResponse := aiResponse + Fragment(chunks[i]);
          transcript := transcript[ai := Message(Ai, aiResponse)];
          frames := frames + [aiResponse];
        }
        assert chunks[..|chunks|] == chunks;
        if thenThrows {
          transcript := transcript[ai := Message(Ai, InferenceError)];
        }
    }
  }

  /**
   * A send issued while a model change is reloading the engine: the handler has already
   * dropped the engine, so the send is ignored and the engine is not called.
   */
  method SendDuringReload(app: App, value: string, reply: Completion) returns (prompt: Option<seq<Message>>)
    modifies app
    ensures prompt == None && app.engine == None && app.sendDisabled
    ensures app.transcript == old(app.transcript) && app.input == old(app.input)
    ensures app.selectedModel == value && app.storage == old(app.storage)[SelectedModelKey := value]
  {
    app.BeginModelChange(value);
    var frames;
    prompt, frames := app.HandleSend(reply);
  }
}
