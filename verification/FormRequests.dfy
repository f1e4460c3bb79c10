/** Requests that carry form data, from the printer to the form that the server holds. */
module FormRequests {
  import opened Options
  import opened StringUtils
  import opened Multipart
  import opened MultipartTexts
  import opened FormData
  import opened FormDataRoundTrip
  import opened RequestState
  import opened RequestRoundTrip
  import HttpFeed
  import Requests

  /**
   A printed form, sent with the content type that the printer returns and cut anywhere, is received with
   result 0, and the server holds its fields and files.
   */
  method ReceiveForm(parts: seq<string>, ghost r: Message, ghost fields: seq<(string, string)>,
      ghost files: seq<(string, string, string)>, ghost boundary: string, ghost guess: string -> string)
    returns (ret: int, request: Requests.Request)
    requires CanPrint(fields, files, boundary, guess) && IsMessage(r)
    requires TypeOf(r) == "multipart/form-data; boundary=" + boundary
    requires r.body == BodyText(FieldParts(fields) + FileParts(files, guess), boundary)
    requires HttpFeed.AreBuffers(parts) && parts != [] && HttpFeed.Concat(parts) == RequestText(r)
    ensures ret == 0 && IsFormOf(request.body.form, fields, files, guess)
  {
    hide IsMessage, RequestText, TypeOf, CanPrint, IsFormOf, MultipartForm, NamesForms;
    FormIsRead(fields, files, boundary, guess);
    ret, request := ReceivePrinted(parts, r);
  }

  lemma FormIsRead(fields: seq<(string, string)>, files: seq<(string, string, string)>, boundary: string,
      guess: string -> string)
    requires CanPrint(fields, files, boundary, guess)
    ensures var body := BodyText(FieldParts(fields) + FileParts(files, guess), boundary);
            var form := FormIn("multipart/form-data; boundary=" + boundary, body);
            form.Some? && IsFormOf(form.value, fields, files, guess)
  {
    hide CanPrint, IsFormOf, Buffer, HandleAll, BoundaryOf, AllLines, JoinWith, BodyText;
    PrintedIsRead(fields, files, boundary, guess);
    BodyIsText(FieldParts(fields) + FileParts(files, guess), boundary);
    assert "" + "multipart/form-data" + ("; boundary=" + boundary) == "multipart/form-data; boundary=" + boundary;
  }

  /** What a text is as a form with this boundary: its callbacks, and what they make of the empty form. */
  ghost function FormOfText(boundary: string, text: string): Option<Form> {
    if text == "" then Some(EmptyForm) else
      match Meaning("--" + boundary, text)
      case None => None
      case Some(t) => HandleAll(EmptyForm, t)
  }

  lemma TextIsForm(boundary: string, text: string)
    requires boundary != "" && forall c <- [';', '=', '\r', '\0'] :: c !in boundary
    ensures FormIn("multipart/form-data; boundary=" + boundary, text) == FormOfText(boundary, text)
  {
    hide Meaning, HandleAll, BoundaryOf, Buffer;
    assert forall c <- [';', '=', '\0'] :: c in [';', '=', '\r', '\0'];
    assert '\r' in [';', '=', '\r', '\0'];
    BoundaryIsRecovered(boundary);
    TextIsMeant("--" + boundary, text);
    assert "" + "multipart/form-data" + ("; boundary=" + boundary) == "multipart/form-data; boundary=" + boundary;
  }

  /**
   Any body with such a content type: the result is -3 exactly if the multipart parser refuses the text or a
   callback reports an error; otherwise it is 0, and the server holds the form.
   */
  method ReceiveFormText(parts: seq<string>, ghost r: Message, ghost boundary: string)
    returns (ret: int, request: Requests.Request)
    requires IsMessage(r) && TypeOf(r) == "multipart/form-data; boundary=" + boundary
    requires boundary != "" && forall c <- [';', '=', '\r', '\0'] :: c !in boundary
    requires HttpFeed.AreBuffers(parts) && parts != [] && HttpFeed.Concat(parts) == RequestText(r)
    ensures match FormOfText(boundary, r.body)
            case None => ret == -3
            case Some(form) => ret == 0 && request.body.form == form
  {
    hide IsMessage, RequestText, TypeOf, FormOfText, MultipartForm, NamesForms;
    TextIsForm(boundary, r.body);
    ret, request := ReceivePrinted(parts, r);
  }

  /** A body with another content type, or none, is left alone, whatever it is. */
  method ReceiveOther(parts: seq<string>, ghost r: Message) returns (ret: int, request: Requests.Request)
    requires IsMessage(r)
    requires forall before, after :: TypeOf(r) != before + "multipart/form-data" + after
    requires HttpFeed.AreBuffers(parts) && parts != [] && HttpFeed.Concat(parts) == RequestText(r)
    ensures ret == 0 && request.body.form == Form([], []) && request.body.rawString == r.body
  {
    hide IsMessage, RequestText, TypeOf, MultipartForm;
    ret, request := ReceivePrinted(parts, r);
  }
}
