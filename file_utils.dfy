/** The encoder of utils/fileUtils.ts: `fileToBase64` reads a file as a data URL
    (`data:<mime>;base64,<payload>`, the syntax of section 3 of RFC 2397 as
    `readAsDataURL` produces it) and splits it into the payload and the MIME type.
    The FileReader itself is not modelled: how the read ends is an input. */
module FileUtils {
  import opened Js

  /** What `fileToBase64` resolves with. A field is `undefined` when the reader's
      result lacks the comma, or the colon before the first semicolon. */
  datatype Base64Image = Base64Image(data: Option<string>, mimeType: Option<string>)

  /** How the FileReader's read ends: `onload` with `reader.result`, or `onerror`
      with the event it passes. */
  datatype ReadOutcome = Loaded(result: string) | ReadFailed(event: string)

  /** `result.split(',')[1]` and `result.split(';')[0].split(':')[1]`. */
  function ParseDataUrl(result: string): (r: Base64Image)
    ensures r.data.Some? <==> ',' in result
    ensures r.data.Some? ==> ',' !in r.data.value
    ensures r.mimeType.Some? ==> ';' !in r.mimeType.value && ':' !in r.mimeType.value
  {
    var commaFields := Split(result, ',');
    var beforeSemicolon := Split(result, ';')[0];
    Base64Image(At(commaFields, 1), At(Split(beforeSemicolon, ':'), 1))
  }

  /** `fileToBase64`: resolves with the parsed reader result after `onload`; after
      `onerror` it rejects with the reader's event and never resolves. */
  function FileToBase64(read: ReadOutcome): (r: Result<Base64Image, Thrown>)
    ensures r.Failure? <==> read.ReadFailed?
    ensures read.Loaded? ==> r.value == ParseDataUrl(read.result)
    ensures read.ReadFailed? ==> r.error == NonError(read.event)
  {
    match read
    case Loaded(result) => Success(ParseDataUrl(result))
    case ReadFailed(event) => Failure(NonError(event))
  }

  /** The payload is exactly the text between the first comma and the next comma
      (or the end). */
  lemma DataIsSecondCommaField(pre: string, d: string, rest: string)
    requires ',' !in pre && ',' !in d
    requires rest == [] || rest[0] == ','
    ensures ParseDataUrl(pre + [','] + d + rest).data == Some(d)
  {
    SecondFieldIs(pre, ',', d, rest);
  }

  /** The MIME type is exactly the text between the first colon and the next colon
      (or the end) of the part before the first semicolon. */
  lemma MimeTypeIsSecondColonField(scheme: string, m: string, more: string, tail: string)
    requires ':' !in scheme && ':' !in m
    requires ';' !in scheme && ';' !in m && ';' !in more
    requires more == [] || more[0] == ':'
    requires tail == [] || tail[0] == ';'
    ensures ParseDataUrl(scheme + [':'] + m + more + tail).mimeType == Some(m)
  {
    var head := scheme + [':'] + m + more;
    assert ';' !in head;
    FirstFieldIs(head, ';', tail);
    SecondFieldIs(scheme, ':', m, more);
  }

  /** The MIME type is present exactly when a colon comes before the first semicolon
      (or anywhere, when there is no semicolon). So `"data;x:y"` has none. */
  lemma MimeTypeNeedsColonBeforeSemicolon(result: string)
    ensures ParseDataUrl(result).mimeType.Some? <==>
              exists k :: 0 <= k < |result| && result[k] == ':' && ';' !in result[..k]
  {
    var head := Split(result, ';')[0];
    FirstFieldIsPrefix(result, ';');
    assert forall j :: 0 <= j < |head| ==> result[j] == head[j];
    if ':' in head {
      var k :| 0 <= k < |head| && head[k] == ':';
      assert result[..k] == head[..k];
      assert result[k] == ':' && ';' !in result[..k];
    } else {
      forall k | 0 <= k < |result| && result[k] == ':'
        ensures ';' in result[..k]
      {
        assert result[|head|] == ';';
        assert result[..k][|head|] == ';';
      }
    }
  }

  /** The payload never carries the `;base64,` marker, since that marker holds a comma. */
  lemma DataHasNoBase64Marker(result: string, i: nat)
    requires ParseDataUrl(result).data.Some?
    requires i + 8 <= |ParseDataUrl(result).data.value|
    ensures ParseDataUrl(result).data.value[i..i + 8] != ";base64,"
  {
    var d := ParseDataUrl(result).data.value;
    assert d[i..i + 8][7] == d[i + 7];
  }
}
