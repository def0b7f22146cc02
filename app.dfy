/** The state of the `App` component (presupuestos/App.tsx) and its handlers.
    Each `useState` pair becomes a field; each handler a method that changes
    exactly the fields whose setters it calls. The extraction is a parameter:
    a function from the captured image to the outcome of `extractBudgetData`. */
module AppState {
  import opened Wrappers
  import opened Types
  import GeminiService

  /** At most this many history entries are kept. */
  const MaxHistory: nat := 20

  /** The message shown when the extraction fails. */
  const ProcessErrorMessage: string := "Error al procesar la imagen con IA. Inténtalo de nuevo."

  /** `s.slice(0, n)`: the first `n` elements, or all of them when there are fewer. */
  function Take<T>(s: seq<T>, n: nat): (r: seq<T>)
    ensures |r| == if |s| <= n then |s| else n
    ensures r == s[..|r|]
  {
    if |s| <= n then s else s[..n]
  }

  /** `[newItem, ...history].slice(0, 20)`. */
  function PushHistory(item: HistoryItem, history: seq<HistoryItem>): (h: seq<HistoryItem>)
    ensures 1 <= |h| <= MaxHistory
    ensures h[0] == item
    ensures h[1..] == Take(history, MaxHistory - 1)
  {
    Take([item] + history, MaxHistory)
  }

  /** Adding to a full history evicts exactly its oldest entry; adding to a
      shorter one evicts nothing. */
  lemma PushHistoryEviction(item: HistoryItem, history: seq<HistoryItem>)
    ensures |history| < MaxHistory ==> PushHistory(item, history) == [item] + history
    ensures |history| == MaxHistory ==>
      PushHistory(item, history) == [item] + history[..MaxHistory - 1]
  {
    var h := PushHistory(item, history);
    assert h == [h[0]] + h[1..];
  }

  /** `history.filter(item => item.id !== id)`. */
  function RemoveId(history: seq<HistoryItem>, id: string): (h: seq<HistoryItem>)
    ensures |h| <= |history|
    ensures forall i :: 0 <= i < |h| ==> h[i].id != id
    ensures forall x :: x in h <==> x in history && x.id != id
    decreases |history|
  {
    if history == [] then []
    else (if history[0].id != id then [history[0]] else []) + RemoveId(history[1..], id)
  }

  /** Deleting keeps the other entries in their relative order: removing from a
      concatenation removes from each part. */
  lemma {:induction false} RemoveIdConcat(a: seq<HistoryItem>, b: seq<HistoryItem>, id: string)
    ensures RemoveId(a + b, id) == RemoveId(a, id) + RemoveId(b, id)
    decreases |a|
  {
    if a == [] {
      assert a + b == b;
    } else {
      assert (a + b)[0] == a[0];
      assert (a + b)[1..] == a[1..] + b;
      RemoveIdConcat(a[1..], b, id);
    }
  }

  /** Deleting an id that is not present changes nothing. */
  lemma {:induction false} RemoveIdAbsent(history: seq<HistoryItem>, id: string)
    requires forall i :: 0 <= i < |history| ==> history[i].id != id
    ensures RemoveId(history, id) == history
    decreases |history|
  {
    if history != [] {
      RemoveIdAbsent(history[1..], id);
      assert [history[0]] + history[1..] == history;
    }
  }

  /** Deleting twice is the same as deleting once. */
  lemma RemoveIdIdempotent(history: seq<HistoryItem>, id: string)
    ensures RemoveId(RemoveId(history, id), id) == RemoveId(history, id)
  {
    RemoveIdAbsent(RemoveId(history, id), id);
  }

  /** `history.find(h => h.id === id)`: the first entry with that id. */
  function FindById(history: seq<HistoryItem>, id: string): (r: Option<HistoryItem>)
    ensures r.None? <==> forall i :: 0 <= i < |history| ==> history[i].id != id
    ensures r.Some? ==> r.value in history && r.value.id == id
    decreases |history|
  {
    if history == [] then None
    else if history[0].id == id then Some(history[0])
    else FindById(history[1..], id)
  }

  /** The entry found is the earliest with that id. */
  lemma {:induction false} FindByIdFirst(history: seq<HistoryItem>, id: string)
    requires FindById(history, id).Some?
    ensures exists k :: (0 <= k < |history| && history[k] == FindById(history, id).value
                         && forall i :: 0 <= i < k ==> history[i].id != id)
    decreases |history|
  {
    if history[0].id != id {
      FindByIdFirst(history[1..], id);
      var k :| 0 <= k < |history[1..]| && history[1..][k] == FindById(history, id).value
        && forall i :: 0 <= i < k ==> history[1..][i].id != id;
      assert history[k + 1] == FindById(history, id).value;
      assert forall i :: 0 <= i < k + 1 ==> history[i].id != id by {
        forall i | 0 <= i < k + 1 ensures history[i].id != id {
          if i > 0 { assert history[i] == history[1..][i - 1]; }
        }
      }
    } else {
      assert history[0] == FindById(history, id).value;
    }
  }

  /** Whether deleting `id` must also clear the shown result: the first entry
      with that id has the result's budget number. */
  function DeleteClearsResult(history: seq<HistoryItem>, id: string, result: Option<BudgetData>): (clear: bool)
    ensures clear <==> result.Some? && FindById(history, id).Some?
                       && FindById(history, id).value.data.budgetNumber == result.value.budgetNumber
    ensures clear ==> exists i :: 0 <= i < |history| && history[i].id == id
  {
    match result
    case None => false
    case Some(r) =>
      match FindById(history, id)
      case None => false
      case Some(h) => h.data.budgetNumber == r.budgetNumber
  }

  /** JavaScript truthiness of an optional string: `null` and `""` are falsy. */
  predicate Truthy(s: Option<string>)
  {
    s.Some? && s.value != ""
  }

  /** The history entry recorded for a successful extraction. */
  function NewItem(id: string, timestamp: string, data: BudgetData): (item: HistoryItem)
    ensures item.client == data.client && item.total == data.total && item.data == data
    ensures item.id == id && item.timestamp == timestamp
  {
    HistoryItem(id, timestamp, data.client, data.total, data)
  }

  class App {
    var capturedImage: Option<string>
    var processing: bool
    var error: Option<string>
    var result: Option<BudgetData>
    var history: seq<HistoryItem>
    var autoDownloadRequested: bool

    /** The history never exceeds its cap. */
    ghost predicate Valid()
      reads this
    {
      |history| <= MaxHistory
    }

    /** The initial `useState` values. */
    constructor ()
      ensures Valid()
      ensures capturedImage == None && !processing && error == None && result == None
      ensures history == [] && !autoDownloadRequested
    {
      capturedImage := None;
      processing := false;
      error := None;
      result := None;
      history := [];
      autoDownloadRequested := false;
    }

    /** `handleCapture`: keep the photo and clear any error. */
    method HandleCapture(base64: string)
      requires Valid()
      modifies this
      ensures Valid()
      ensures capturedImage == Some(base64) && error == None
      ensures processing == old(processing) && result == old(result)
      ensures history == old(history) && autoDownloadRequested == old(autoDownloadRequested)
    {
      capturedImage := Some(base64);
      error := None;
    }

    /** The "Reintentar" button: drop the captured photo. */
    method Retake()
      requires Valid()
      modifies this
      ensures Valid()
      ensures capturedImage == None
      ensures processing == old(processing) && error == old(error) && result == old(result)
      ensures history == old(history) && autoDownloadRequested == old(autoDownloadRequested)
    {
      capturedImage := None;
    }

    /** The first half of `handleProcess`, up to the `await`: nothing happens
        without a captured image (`null` or the empty string); otherwise the app
        is processing, without error, and the image is handed to the extraction. */
    method BeginProcess() returns (image: Option<string>)
      requires Valid()
      modifies this
      ensures Valid()
      ensures image == if Truthy(old(capturedImage)) then old(capturedImage) else None
      ensures !Truthy(old(capturedImage)) ==>
        && processing == old(processing) && error == old(error)
        && capturedImage == old(capturedImage) && result == old(result)
        && history == old(history) && autoDownloadRequested == old(autoDownloadRequested)
      ensures Truthy(old(capturedImage)) ==>
        && processing && error == None
        && capturedImage == old(capturedImage) && result == old(result)
        && history == old(history) && autoDownloadRequested == old(autoDownloadRequested)
    {
      if !Truthy(capturedImage) {
        return None;
      }
      image := capturedImage;
      processing := true;
      error := None;
    }

    /** The second half of `handleProcess`, once the extraction settles. The
        `try` block shows the result, then draws the item's id, then pushes the
        item on the history (capped at 20), then saves the history, and only
        then drops the photo and the auto-download request. `id` is the value of
        `crypto.randomUUID()`, `None` when that call throws (outside a secure
        context), and `saved` says whether `localStorage.setItem` returns
        normally. A throw at any point leaves whatever the block has already set
        and shows the error; processing ends in every case. */
    method FinishProcess(outcome: Result<BudgetData, GeminiService.ExtractError>,
                         id: Option<string>, timestamp: string, saved: bool)
      requires Valid()
      modifies this
      ensures Valid()
      ensures !processing
      ensures outcome.Failure? ==>
        && error == Some(ProcessErrorMessage)
        && result == old(result) && history == old(history)
        && capturedImage == old(capturedImage) && autoDownloadRequested == old(autoDownloadRequested)
      ensures outcome.Success? ==> result == Some(outcome.value)
      ensures outcome.Success? && id.None? ==>
        && error == Some(ProcessErrorMessage) && history == old(history)
        && capturedImage == old(capturedImage) && autoDownloadRequested == old(autoDownloadRequested)
      ensures outcome.Success? && id.Some? ==>
        history == PushHistory(NewItem(id.value, timestamp, outcome.value), old(history))
      ensures outcome.Success? && id.Some? && !saved ==>
        && error == Some(ProcessErrorMessage)
        && capturedImage == old(capturedImage) && autoDownloadRequested == old(autoDownloadRequested)
      ensures outcome.Success? && id.Some? && saved ==>
        capturedImage == None && !autoDownloadRequested && error == old(error)
    {
      match outcome {
        case Success(data) =>
          result := Some(data);
          if id.None? {
            error := Some(ProcessErrorMessage);
          } else {
            history := PushHistory(NewItem(id.value, timestamp, data), history);
            if !saved {
              error := Some(ProcessErrorMessage);
            } else {
              capturedImage := None;
              autoDownloadRequested := false;
            }
          }
        case Failure(_) =>
          error := Some(ProcessErrorMessage);
      }
      processing := false;
    }

    /** `handleProcess` as one step, with nothing else happening while the
        extraction is pending. `extract` stands for `extractBudgetData`, `id`
        and `saved` are as in FinishProcess, and `timestamp` stands for
        `new Date().toISOString()`. When another handler does run in between,
        BeginProcess, that handler and FinishProcess are the steps to compose. */
    method HandleProcess(extract: string -> Result<BudgetData, GeminiService.ExtractError>,
                         id: Option<string>, timestamp: string, saved: bool)
      requires Valid() && !processing
      modifies this
      ensures Valid() && !processing
      ensures !Truthy(old(capturedImage)) ==>
        && error == old(error) && capturedImage == old(capturedImage) && result == old(result)
        && history == old(history) && autoDownloadRequested == old(autoDownloadRequested)
      ensures Truthy(old(capturedImage)) && extract(old(capturedImage).value).Failure? ==>
        && error == Some(ProcessErrorMessage)
        && result == old(result) && history == old(history)
        && capturedImage == old(capturedImage) && autoDownloadRequested == old(autoDownloadRequested)
      ensures Truthy(old(capturedImage)) && extract(old(capturedImage).value).Success? ==>
        var data := extract(old(capturedImage).value).value;
        && result == Some(data)
        && (id.None? ==> history == old(history))
        && (id.Some? ==> history == PushHistory(NewItem(id.value, timestamp, data), old(history)))
        && (id.Some? && saved ==> capturedImage == None && !autoDownloadRequested && error == None)
        && (id.None? || !saved ==>
              && error == Some(ProcessErrorMessage)
              && capturedImage == old(capturedImage) && autoDownloadRequested == old(autoDownloadRequested))
    {
      var image := BeginProcess();
      if image.Some? {
        FinishProcess(extract(image.value), id, timestamp, saved);
      }
    }

    /** `handleReset`: back to the start screen; the history stays. */
    method HandleReset()
      requires Valid()
      modifies this
      ensures Valid()
      ensures capturedImage == None && result == None && error == None && !autoDownloadRequested
      ensures processing == old(processing) && history == old(history)
    {
      capturedImage := None;
      result := None;
      error := None;
      autoDownloadRequested := false;
    }

    /** `handleDeleteFromHistory`: drop every entry with that id, save, and
        clear the shown result when the first such entry carried its budget
        number. `saved` says whether `localStorage.setItem` returns normally;
        when it throws, the exception leaves the handler after the history is
        set and before the result is looked at. */
    method HandleDeleteFromHistory(id: string, saved: bool)
      requires Valid()
      modifies this
      ensures Valid()
      ensures history == RemoveId(old(history), id)
      ensures result == if saved && DeleteClearsResult(old(history), id, old(result)) then None else old(result)
      ensures capturedImage == old(capturedImage) && processing == old(processing)
      ensures error == old(error) && autoDownloadRequested == old(autoDownloadRequested)
    {
      var clear := DeleteClearsResult(history, id, result);
      history := RemoveId(history, id);
      if saved && clear {
        result := None;
      }
    }

    /** `handleSelectFromHistory`: show a stored document again, optionally
        asking the result view to download it straight away. */
    method HandleSelectFromHistory(item: HistoryItem, autoDownload: bool := false)
      requires Valid()
      modifies this
      ensures Valid()
      ensures result == Some(item.data) && capturedImage == None
      ensures autoDownloadRequested == autoDownload
      ensures processing == old(processing) && error == old(error) && history == old(history)
    {
      result := Some(item.data);
      capturedImage := None;
      autoDownloadRequested := autoDownload;
    }

    /** The `onAutoDownloadComplete` callback the App passes to its result view
        (App.tsx:181): it clears the request. The result view shown does not
        invoke it. */
    method AutoDownloadComplete()
      requires Valid()
      modifies this
      ensures Valid()
      ensures !autoDownloadRequested
      ensures capturedImage == old(capturedImage) && processing == old(processing)
      ensures error == old(error) && result == old(result) && history == old(history)
    {
      autoDownloadRequested := false;
    }
  }

  /** A session: two successful extractions, with a reset in between as the
      "Nuevo" button offers it, put the newer one first; deleting the newer one
      while it is shown clears the screen. */
  method ExampleSession(d1: BudgetData, d2: BudgetData) returns (history: seq<HistoryItem>, result: Option<BudgetData>)
    ensures history == [NewItem("id-1", "t1", d1)] && result == None
  {
    var app := new App();
    app.HandleCapture("data:image/jpeg;base64,AAAA");
    app.HandleProcess(_ => Success(d1), Some("id-1"), "t1", true);
    assert app.history == [NewItem("id-1", "t1", d1)];
    app.HandleReset();
    app.HandleCapture("data:image/jpeg;base64,BBBB");
    app.HandleProcess(_ => Success(d2), Some("id-2"), "t2", true);
    assert app.history == [NewItem("id-2", "t2", d2), NewItem("id-1", "t1", d1)];
    assert app.result == Some(d2);
    app.HandleDeleteFromHistory("id-2", true);
    history, result := app.history, app.result;
  }

  /** A reset that runs while the extraction is pending (possible when a late
      file read delivers a photo while a result is shown, so the header's
      "Nuevo" button is live): the failure afterwards shows the error on the
      start screen, with no photo and no result. */
  method ResetWhileProcessing(photo: string, data: BudgetData)
    returns (capturedImage: Option<string>, result: Option<BudgetData>, error: Option<string>)
    requires photo != ""
    ensures capturedImage == None && result == None && error == Some(ProcessErrorMessage)
  {
    var app := new App();
    app.HandleSelectFromHistory(NewItem("id-1", "t1", data));
    app.HandleCapture(photo);
    var image := app.BeginProcess();
    app.HandleReset();
    app.FinishProcess(Failure(GeminiService.RequestFailed), None, "t2", true);
    capturedImage, result, error := app.capturedImage, app.result, app.error;
  }
}
