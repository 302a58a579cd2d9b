/** The preview pane of components/ThumbnailPreview.tsx: which one of five views
    it shows, and whether it offers the download link. */
module ThumbnailPreview {
  import opened Js

  datatype View =
    | Spinner
    | ErrorMessage(message: string)
    | ThumbnailImage(src: string)
    | HeadshotImage(src: string)
    | Placeholder

  /** The `<a href=... download=...>` element. */
  datatype DownloadLink = DownloadLink(href: string, filename: string)

  const DownloadFilename: string := "youtube_thumbnail.png"

  /** The nested conditional: loading first, then an error not hidden by a thumbnail,
      then the generated thumbnail, then the headshot preview, else the placeholder. */
  function SelectView(isLoading: bool, error: Option<string>, generatedThumbnail: Option<string>,
                      headshotPreview: Option<string>): (v: View)
    ensures v.Spinner? <==> isLoading
    ensures v.ErrorMessage? <==> !isLoading && Truthy(error) && !Truthy(generatedThumbnail)
    ensures v.ThumbnailImage? <==> !isLoading && Truthy(generatedThumbnail)
    ensures v.HeadshotImage? <==>
              !isLoading && !Truthy(error) && !Truthy(generatedThumbnail) && Truthy(headshotPreview)
    ensures v.Placeholder? <==>
              !isLoading && !Truthy(error) && !Truthy(generatedThumbnail) && !Truthy(headshotPreview)
    ensures v.ErrorMessage? ==> Some(v.message) == error
    ensures v.ThumbnailImage? ==> Some(v.src) == generatedThumbnail
    ensures v.HeadshotImage? ==> Some(v.src) == headshotPreview
  {
    if isLoading then Spinner
    else if Truthy(error) && !Truthy(generatedThumbnail) then ErrorMessage(error.value)
    else if Truthy(generatedThumbnail) then ThumbnailImage(generatedThumbnail.value)
    else if Truthy(headshotPreview) then HeadshotImage(headshotPreview.value)
    else Placeholder
  }

  /** `{generatedThumbnail && <a ...>}`: present exactly when the thumbnail is truthy,
      whatever the loading flag and the error; the file name never changes. */
  function Download(generatedThumbnail: Option<string>): (link: Option<DownloadLink>)
    ensures link.Some? <==> Truthy(generatedThumbnail)
    ensures link.Some? ==> link.value.href == generatedThumbnail.value
    ensures link.Some? ==> link.value.filename == "youtube_thumbnail.png"
  {
    if Truthy(generatedThumbnail) then Some(DownloadLink(generatedThumbnail.value, DownloadFilename))
    else None
  }

  /** A generated thumbnail hides any error, and wins over the headshot preview,
      unless the spinner is up. */
  lemma ThumbnailHidesErrorAndPreview(error: Option<string>, thumbnail: string, preview: Option<string>)
    requires thumbnail != ""
    ensures SelectView(false, error, Some(thumbnail), preview) == ThumbnailImage(thumbnail)
    ensures SelectView(true, error, Some(thumbnail), preview) == Spinner
  {
  }

  /** An empty string counts as absent in every input. */
  lemma EmptyIsAbsent(isLoading: bool, error: Option<string>, thumbnail: Option<string>,
                      preview: Option<string>)
    ensures SelectView(isLoading, Some(""), thumbnail, preview) == SelectView(isLoading, None, thumbnail, preview)
    ensures SelectView(isLoading, error, Some(""), preview) == SelectView(isLoading, error, None, preview)
    ensures SelectView(isLoading, error, thumbnail, Some("")) == SelectView(isLoading, error, thumbnail, None)
    ensures Download(Some("")) == Download(None)
  {
  }
}
