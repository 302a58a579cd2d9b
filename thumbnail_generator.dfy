/** The form of components/ThumbnailGenerator.tsx: six pieces of state changed by
    the title input, the file input (`handleFileChange`), the end of the preview
    read, and the submit button (`handleSubmit`).

    Each handler's effect is a pure transition on `FormState`; the class `Form`
    holds the six fields and its methods make the same changes one setter at a
    time, proved equal to the transitions. The awaited reads and the service call
    are inputs: how the read of the headshot ends, the API key, and the reply. */
module ThumbnailGenerator {
  import opened Js
  import FileUtils
  import GeminiService
  import ThumbnailPreview

  const MaxUploadBytes: nat := 4 * 1024 * 1024
  const TooLargeMessage: string := "File is too large. Please upload an image under 4MB."
  const MissingInputMessage: string := "Please provide both a title and a headshot image."
  const UnknownErrorMessage: string := "An unknown error occurred."

  /** A selected file. Its bytes are not modelled; what reading it yields is an input. */
  datatype File = File(name: string, size: nat)

  datatype FormState = FormState(
    title: string,
    headshotFile: Option<File>,
    headshotPreview: Option<string>,
    generatedThumbnail: Option<string>,
    isLoading: bool,
    error: Option<string>)

  /** The `useState` initial values. */
  function Initial(): FormState {
    FormState("", None, None, None, false, None)
  }

  // ---- handleFileChange and the preview read ----

  /** `e.target.files?.[0]`: `files` is `null` or the (possibly empty) list. */
  function SelectedFile(files: Option<seq<File>>): (f: Option<File>)
    ensures f.Some? <==> files.Some? && |files.value| > 0
    ensures f.Some? ==> f.value == files.value[0]
  {
    match files
    case Some(fs) => At(fs, 0)
    case None => None
  }

  /** `handleFileChange`: nothing without a file; a file over 4 MiB only sets the
      error; otherwise the error is cleared and the file recorded. The preview is
      set later, when the read ends (`PreviewLoaded`). */
  function FileChanged(s: FormState, files: Option<seq<File>>): FormState {
    match SelectedFile(files)
    case None => s
    case Some(f) =>
      if f.size > MaxUploadBytes then s.(error := Some(TooLargeMessage))
      else s.(error := None, headshotFile := Some(f))
  }

  /** `reader.onloadend`: the preview becomes `reader.result`, which is `null` when
      the read failed. */
  function PreviewLoaded(s: FormState, result: Option<string>): FormState {
    s.(headshotPreview := result)
  }

  // ---- handleSubmit ----

  /** `!(!title || !headshotFile)` */
  predicate SubmissionAccepted(s: FormState) {
    s.title != "" && s.headshotFile.Some?
  }

  /** `disabled={isLoading || !title || !headshotFile}` */
  predicate SubmitDisabled(s: FormState) {
    s.isLoading || s.title == "" || s.headshotFile.None?
  }

  /** The synchronous part of a valid submit, before the first `await`. */
  function SubmitStarted(s: FormState): FormState {
    s.(isLoading := true, error := None, generatedThumbnail := None)
  }

  /** The body of the `try`: encode the headshot, then call the service. A read
      failure stops it before any request. */
  function Pipeline(title: string, read: FileUtils.ReadOutcome, apiKey: Option<string>,
                    reply: GeminiService.Reply): (a: GeminiService.Attempt)
    ensures read.ReadFailed? ==> a.sent.None? && a.result == Failure(NonError(read.event))
    ensures read.Loaded? ==>
              var img := FileUtils.ParseDataUrl(read.result);
              a == GeminiService.GenerateThumbnail(apiKey, title, img.data, img.mimeType, reply)
    ensures a.result.Failure? ==> ErrorText(a.result.error) != ""
  {
    match FileUtils.FileToBase64(read)
    case Failure(t) => GeminiService.Attempt(None, Failure(t))
    case Success(img) => GeminiService.GenerateThumbnail(apiKey, title, img.data, img.mimeType, reply)
  }

  /** `err instanceof Error ? err.message : 'An unknown error occurred.'` */
  function ErrorText(t: Thrown): string {
    match t
    case ErrorObject(m) => m
    case NonError(_) => UnknownErrorMessage
  }

  /** `data:${mimeType};base64,${data}` */
  function DataUrl(mimeType: string, data: string): string {
    "data:" + mimeType + ";base64," + data
  }

  /** The thumbnail shown for a generated image; an absent field reads "undefined". */
  function ThumbnailOf(image: GeminiService.GeneratedImage): string {
    DataUrl(Interpolate(image.mimeType), Interpolate(image.data))
  }

  /** The `try`/`catch`/`finally` after the call: the thumbnail or the error message,
      and the loading flag reset either way. */
  function SubmitSettled(s: FormState, result: Result<GeminiService.GeneratedImage, Thrown>): FormState {
    match result
    case Success(image) => s.(generatedThumbnail := Some(ThumbnailOf(image)), isLoading := false)
    case Failure(t) => s.(error := Some(ErrorText(t)), isLoading := false)
  }

  /** The whole of `handleSubmit`. */
  function Submitted(s: FormState, read: FileUtils.ReadOutcome, apiKey: Option<string>,
                     reply: GeminiService.Reply): FormState {
    if !SubmissionAccepted(s) then s.(error := Some(MissingInputMessage))
    else SubmitSettled(SubmitStarted(s), Pipeline(s.title, read, apiKey, reply).result)
  }

  /** The request `handleSubmit` sends, if any. */
  function SubmitRequest(s: FormState, read: FileUtils.ReadOutcome, apiKey: Option<string>,
                         reply: GeminiService.Reply): Option<GeminiService.Request> {
    if !SubmissionAccepted(s) then None else Pipeline(s.title, read, apiKey, reply).sent
  }

  /** What the preview pane is given. */
  function PreviewView(s: FormState): ThumbnailPreview.View {
    ThumbnailPreview.SelectView(s.isLoading, s.error, s.generatedThumbnail, s.headshotPreview)
  }

  // ---- The component's state, changed in place ----

  class Form {
    var title: string
    var headshotFile: Option<File>
    var headshotPreview: Option<string>
    var generatedThumbnail: Option<string>
    var isLoading: bool
    var error: Option<string>

    function State(): FormState
      reads this
    {
      FormState(title, headshotFile, headshotPreview, generatedThumbnail, isLoading, error)
    }

    constructor ()
      ensures State() == Initial()
    {
      title := "";
      headshotFile := None;
      headshotPreview := None;
      generatedThumbnail := None;
      isLoading := false;
      error := None;
    }

    /** The title input's `onChange`. */
    method SetTitle(value: string)
      modifies this
      ensures State() == old(State()).(title := value)
    {
      title := value;
    }

    method HandleFileChange(files: Option<seq<File>>)
      modifies this
      ensures State() == FileChanged(old(State()), files)
    {
      var file := SelectedFile(files);
      if file.Some? {
        if file.value.size > MaxUploadBytes {
          error := Some(TooLargeMessage);
          return;
        }
        error := None;
        headshotFile := file;
      }
    }

    /** The preview reader's `onloadend`. */
    method OnPreviewLoadEnd(result: Option<string>)
      modifies this
      ensures State() == PreviewLoaded(old(State()), result)
    {
      headshotPreview := result;
    }

    /** `handleSubmit` up to its first `await`. */
    method BeginSubmit() returns (proceed: bool)
      modifies this
      ensures proceed == SubmissionAccepted(old(State()))
      ensures proceed ==> State() == SubmitStarted(old(State()))
      ensures !proceed ==> State() == old(State()).(error := Some(MissingInputMessage))
    {
      if title == "" || headshotFile.None? {
        error := Some(MissingInputMessage);
        return false;
      }
      isLoading := true;
      error := None;
      generatedThumbnail := None;
      return true;
    }

    /** The rest of `handleSubmit`, for the title it captured. */
    method FinishSubmit(submittedTitle: string, read: FileUtils.ReadOutcome, apiKey: Option<string>,
                        reply: GeminiService.Reply) returns (sent: Option<GeminiService.Request>)
      modifies this
      ensures sent == Pipeline(submittedTitle, read, apiKey, reply).sent
      ensures State() == SubmitSettled(old(State()), Pipeline(submittedTitle, read, apiKey, reply).result)
    {
      sent := None;
      var encoded := FileUtils.FileToBase64(read);
      if encoded.Success? {
        var attempt := GeminiService.GenerateThumbnail(apiKey, submittedTitle, encoded.value.data,
                                                       encoded.value.mimeType, reply);
        sent := attempt.sent;
        if attempt.result.Success? {
          generatedThumbnail := Some(ThumbnailOf(attempt.result.value));
        } else {
          error := Some(ErrorText(attempt.result.error));
        }
      } else {
        error := Some(ErrorText(encoded.error));
      }
      isLoading := false;
    }

    method HandleSubmit(read: FileUtils.ReadOutcome, apiKey: Option<string>, reply: GeminiService.Reply)
      returns (sent: Option<GeminiService.Request>)
      modifies this
      ensures sent == SubmitRequest(old(State()), read, apiKey, reply)
      ensures State() == Submitted(old(State()), read, apiKey, reply)
    {
      var submittedTitle := title;
      var proceed := BeginSubmit();
      if !proceed {
        return None;
      }
      sent := FinishSubmit(submittedTitle, read, apiKey, reply);
    }

    function SubmitButtonDisabled(): (disabled: bool)
      reads this
      ensures disabled <==> isLoading || !SubmissionAccepted(State())
    {
      SubmitDisabled(State())
    }
  }

  // ---- Properties ----

  /** No file selected: nothing changes. Too large (strictly over 4 MiB): only the
      error is set, the file and preview are kept. Otherwise the error is cleared,
      the file recorded, and the preview left for the read to set. */
  lemma FileChangeRules(s: FormState, files: Option<seq<File>>)
    ensures SelectedFile(files).None? ==> FileChanged(s, files) == s
    ensures SelectedFile(files).Some? && SelectedFile(files).value.size > 4194304 ==>
              FileChanged(s, files).error == Some(TooLargeMessage) &&
              FileChanged(s, files).headshotFile == s.headshotFile &&
              FileChanged(s, files).headshotPreview == s.headshotPreview
    ensures SelectedFile(files).Some? && SelectedFile(files).value.size <= 4194304 ==>
              FileChanged(s, files).error == None &&
              FileChanged(s, files).headshotFile == SelectedFile(files) &&
              FileChanged(s, files).headshotPreview == s.headshotPreview
    ensures FileChanged(s, files).generatedThumbnail == s.generatedThumbnail
    ensures FileChanged(s, files).isLoading == s.isLoading && FileChanged(s, files).title == s.title
  {
  }

  /** The recorded file is never over the limit: every transition keeps this. */
  predicate FileWithinLimit(s: FormState) {
    s.headshotFile.Some? ==> s.headshotFile.value.size <= MaxUploadBytes
  }

  lemma FileLimitInvariant(s: FormState, files: Option<seq<File>>, result: Option<string>, t: string,
                           read: FileUtils.ReadOutcome, apiKey: Option<string>, reply: GeminiService.Reply)
    requires FileWithinLimit(s)
    ensures FileWithinLimit(Initial())
    ensures FileWithinLimit(FileChanged(s, files))
    ensures FileWithinLimit(PreviewLoaded(s, result))
    ensures FileWithinLimit(s.(title := t))
    ensures FileWithinLimit(Submitted(s, read, apiKey, reply))
  {
  }

  /** A submit without a title or without a file sets the validation error and
      nothing else: no request, loading and thumbnail untouched. */
  lemma InvalidSubmitOnlySetsError(s: FormState, read: FileUtils.ReadOutcome, apiKey: Option<string>,
                                   reply: GeminiService.Reply)
    requires s.title == "" || s.headshotFile.None?
    ensures Submitted(s, read, apiKey, reply) == s.(error := Some(MissingInputMessage))
    ensures SubmitRequest(s, read, apiKey, reply).None?
  {
  }

  /** A valid submit: loading set and error and thumbnail cleared before any call;
      afterwards loading is off, and exactly one of thumbnail and error is shown. */
  lemma ValidSubmitSettles(s: FormState, read: FileUtils.ReadOutcome, apiKey: Option<string>,
                           reply: GeminiService.Reply)
    requires SubmissionAccepted(s)
    ensures var m := SubmitStarted(s);
            m.isLoading && m.error.None? && m.generatedThumbnail.None? &&
            PreviewView(m) == ThumbnailPreview.Spinner
    ensures var t := Submitted(s, read, apiKey, reply);
            !t.isLoading && t.title == s.title && t.headshotFile == s.headshotFile &&
            t.headshotPreview == s.headshotPreview &&
            (Truthy(t.generatedThumbnail) <==> !Truthy(t.error))
    ensures var t := Submitted(s, read, apiKey, reply);
            var a := Pipeline(s.title, read, apiKey, reply);
            (a.result.Success? ==>
               t.generatedThumbnail == Some(ThumbnailOf(a.result.value)) && t.error.None? &&
               PreviewView(t) == ThumbnailPreview.ThumbnailImage(ThumbnailOf(a.result.value)) &&
               ThumbnailPreview.Download(t.generatedThumbnail).Some?) &&
            (a.result.Failure? ==>
               t.generatedThumbnail.None? && t.error == Some(ErrorText(a.result.error)) &&
               PreviewView(t) == ThumbnailPreview.ErrorMessage(ErrorText(a.result.error)) &&
               ThumbnailPreview.Download(t.generatedThumbnail).None?)
  {
  }

  /** A read failure rejects with the reader's event, which is not an `Error`: no
      request, and the generic unknown-error message. */
  lemma ReadFailureIsUnknownError(s: FormState, event: string, apiKey: Option<string>,
                                  reply: GeminiService.Reply)
    requires SubmissionAccepted(s)
    ensures SubmitRequest(s, FileUtils.ReadFailed(event), apiKey, reply).None?
    ensures Submitted(s, FileUtils.ReadFailed(event), apiKey, reply).error == Some(UnknownErrorMessage)
  {
  }

  /** Without an API key the message is the configuration error, not wrapped by the
      generic prefix, and no request is made. */
  lemma MissingApiKeyNotWrapped(s: FormState, result: string, apiKey: Option<string>,
                                reply: GeminiService.Reply)
    requires SubmissionAccepted(s) && !Truthy(apiKey)
    ensures SubmitRequest(s, FileUtils.Loaded(result), apiKey, reply).None?
    ensures Submitted(s, FileUtils.Loaded(result), apiKey, reply).error
              == Some(GeminiService.ApiKeyMissingMessage)
  {
  }

  /** The parser recovers exactly what the thumbnail's data URL was built from, when
      the MIME type holds no `,`, `;` or `:` and the payload no `,`. */
  lemma DataUrlRoundTrip(mimeType: string, data: string)
    requires ',' !in mimeType && ';' !in mimeType && ':' !in mimeType
    requires ',' !in data
    ensures FileUtils.ParseDataUrl(DataUrl(mimeType, data)) == FileUtils.Base64Image(Some(data), Some(mimeType))
  {
    var s := DataUrl(mimeType, data);
    var beforeComma := "data:" + mimeType + ";base64";
    assert s == beforeComma + [','] + data + [];
    FileUtils.DataIsSecondCommaField(beforeComma, data, []);
    var tail := ";base64," + data;
    assert s == "data" + [':'] + mimeType + [] + tail;
    FileUtils.MimeTypeIsSecondColonField("data", mimeType, [], tail);
  }

  /** End to end: a headshot read as a data URL, a configured key, and a service that
      answers with an inline image. The request carries the headshot's payload and
      type, and the thumbnail is the data URL of exactly the image returned. */
  lemma SuccessfulSubmit(s: FormState, headshotMime: string, headshotData: string, apiKey: Option<string>,
                         blobMime: string, blobData: string, others: seq<GeminiService.Part>,
                         reason: Option<string>)
    requires SubmissionAccepted(s) && Truthy(apiKey)
    requires ',' !in headshotMime && ';' !in headshotMime && ':' !in headshotMime && ',' !in headshotData
    ensures var read := FileUtils.Loaded(DataUrl(headshotMime, headshotData));
            var blob := GeminiService.Blob(Some(blobData), Some(blobMime));
            var reply := GeminiService.Responded(GeminiService.Response(Some([GeminiService.Candidate(
                           Some(GeminiService.Content(Some([GeminiService.Part(Some(blob), None)] + others))),
                           reason)])));
            SubmitRequest(s, read, apiKey, reply)
              == Some(GeminiService.BuildRequest(s.title, Some(headshotData), Some(headshotMime))) &&
            Submitted(s, read, apiKey, reply).generatedThumbnail == Some(DataUrl(blobMime, blobData)) &&
            Submitted(s, read, apiKey, reply).error.None?
  {
    DataUrlRoundTrip(headshotMime, headshotData);
    var blob := GeminiService.Blob(Some(blobData), Some(blobMime));
    GeminiService.InlineImageRoundTrip(apiKey, s.title, Some(headshotData), Some(headshotMime),
                                       blob, others, reason, []);
    assert [GeminiService.Candidate(Some(GeminiService.Content(Some([GeminiService.Part(Some(blob), None)] + others))),
                                    reason)] + [] ==
           [GeminiService.Candidate(Some(GeminiService.Content(Some([GeminiService.Part(Some(blob), None)] + others))),
                                    reason)];
  }

  /** The button is enabled only when a submit would pass validation. */
  lemma EnabledButtonSubmits(s: FormState)
    requires !SubmitDisabled(s)
    ensures SubmissionAccepted(s) && !s.isLoading
  {
  }

  // ---- The form driven through its handlers ----

  /** A title is typed, a 2 MB JPEG headshot picked and read, and the form submitted
      with a configured key while the service answers with a PNG. */
  method ScenarioGeneratesPng()
    returns (sent: Option<GeminiService.Request>, thumbnail: Option<string>, error: Option<string>,
             loading: bool)
    ensures sent == Some(GeminiService.BuildRequest("My Craziest Adventure Yet!", Some("LzlqLzRBQ"), Some("image/jpeg")))
    ensures thumbnail == Some(DataUrl("image/png", "iVBORw0KGgo"))
    ensures error.None? && !loading
  {
    var form := new Form();
    form.SetTitle("My Craziest Adventure Yet!");
    form.HandleFileChange(Some([File("headshot.jpg", 2 * 1024 * 1024)]));
    var headshotUrl := DataUrl("image/jpeg", "LzlqLzRBQ");
    form.OnPreviewLoadEnd(Some(headshotUrl));
    var blob := GeminiService.Blob(Some("iVBORw0KGgo"), Some("image/png"));
    var reply := GeminiService.Responded(GeminiService.Response(Some([GeminiService.Candidate(
                   Some(GeminiService.Content(Some([GeminiService.Part(Some(blob), None)] + []))), Some("STOP"))])));
    assert ',' !in "image/jpeg" && ';' !in "image/jpeg" && ':' !in "image/jpeg" && ',' !in "LzlqLzRBQ";
    SuccessfulSubmit(form.State(), "image/jpeg", "LzlqLzRBQ", Some("key"), "image/png", "iVBORw0KGgo", [], Some("STOP"));
    sent := form.HandleSubmit(FileUtils.Loaded(headshotUrl), Some("key"), reply);
    thumbnail, error, loading := form.generatedThumbnail, form.error, form.isLoading;
  }

  /** The same submit without an API key: no request, and the configuration message. */
  method ScenarioMissingApiKey(reply: GeminiService.Reply)
    returns (sent: Option<GeminiService.Request>, thumbnail: Option<string>, error: Option<string>)
    ensures sent.None? && thumbnail.None?
    ensures error == Some("API_KEY environment variable is not set.")
  {
    var form := new Form();
    form.SetTitle("My Craziest Adventure Yet!");
    form.HandleFileChange(Some([File("headshot.jpg", 2 * 1024 * 1024)]));
    sent := form.HandleSubmit(FileUtils.Loaded(DataUrl("image/jpeg", "LzlqLzRBQ")), None, reply);
    thumbnail, error := form.generatedThumbnail, form.error;
  }
}
