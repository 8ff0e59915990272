/**
 The upload handler of the web front end and its field projection:
 `upload_file` routes a non-empty upload to `process_pdf` when its name
 ends in ".pdf" in any case and to `process_image` otherwise, then keeps one
 requested field of each record through `extract_selected_field`.
 */
module Integrate {
  import opened Wrappers
  import opened PyText
  import opened InvoiceParser
  import Sources

  /** A Python `dict` from `str` to `str`, as the processors return and as
      `jsonify` receives. */
  type Dict = map<string, string>

  const NotFound: string := "Not Found"

  /** The five dict keys a parsed record may have. */
  const KeyNames: set<string> := {"invoice_number", "order_number", "date", "total", "raw_text"}

  /** A parsed record as the `dict` the processors return: each field under
      its key name. */
  function AsDict(r: Record): (d: Dict)
    ensures d.Keys <= KeyNames
    ensures forall f :: f in r <==> Name(f) in d
    ensures forall f :: f in r ==> d[Name(f)] == r[f]
  {
    var d := map k | k in KeyNames && FieldNamed(k).Some? && FieldNamed(k).value in r :: r[FieldNamed(k).value];
    assert forall f :: FieldNamed(Name(f)) == Some(f) && Name(f) in KeyNames by {
      forall f ensures FieldNamed(Name(f)) == Some(f) && Name(f) in KeyNames {
        FieldNamedName(f);
      }
    }
    d
  }

  /** `data.get(field, 'Not Found')`. */
  function Get(data: Dict, field: string): string {
    if field in data then data[field] else NotFound
  }

  /** `extract_selected_field(data_list, field)`: one single-key dict per
      record, in the same order, holding the record's value for `field` or
      "Not Found". */
  method ExtractSelectedField(dataList: seq<Dict>, field: string) returns (results: seq<Dict>)
    ensures |results| == |dataList|
    ensures forall i :: 0 <= i < |results| ==> results[i].Keys == {field}
    ensures forall i :: 0 <= i < |results| ==>
              field in results[i] && (results[i][field] == if field in dataList[i] then dataList[i][field] else NotFound)
  {
    results := [];
    for i := 0 to |dataList|
      invariant |results| == i
      invariant forall k :: 0 <= k < i ==> results[k] == map[field := Get(dataList[k], field)]
    {
      results := results + [map[field := Get(dataList[i], field)]];
    }
  }

  /** Selecting `raw_text` from a parsed record gives the recognised text,
      never the "Not Found" default; selecting a line field gives what the
      parser stored, or "Not Found" when no line wrote it. */
  lemma SelectFromParsed(text: string, f: Field)
    ensures Get(AsDict(Parsed(text)), Name(RawText)) == text
    ensures Get(AsDict(Parsed(text)), Name(f)) == if f in Parsed(text) then Parsed(text)[f] else NotFound
  {
  }

  /** Selecting a key that no parsed record has, such as a misspelt field
      name, gives "Not Found" for every record. */
  lemma SelectUnknownField(r: Record, field: string)
    requires field !in KeyNames
    ensures Get(AsDict(r), field) == NotFound
  {
  }

  /** Which processor handles an upload. */
  datatype Processor = PdfProcessor | ImageProcessor

  /** `filename.lower().endswith('.pdf')`. */
  function Route(filename: string): Processor {
    if EndsWith(Lower(filename), ".pdf") then PdfProcessor else ImageProcessor
  }

  /** A file goes to the PDF processor exactly when its last four characters
      are ".pdf" in some mix of upper and lower case. */
  lemma RouteSuffix(filename: string)
    ensures Route(filename) == PdfProcessor <==> |filename| >= 4 && LiteralAt(filename, |filename| - 4, ".pdf")
  {
    var low, pdf := Lower(filename), ".pdf";
    if |filename| >= 4 {
      var i := |filename| - 4;
      LiteralAtLower(filename, i, pdf);
      EndsWithAt(low, pdf);
    }
  }

  /** "Invoice.PDF" goes to the PDF processor. */
  lemma RouteUpperCasePdf(name: string)
    requires name == "Invoice.PDF"
    ensures Route(name) == PdfProcessor
  {
    RouteSuffix(name);
    LiteralAtByChars(name, 7, ".pdf");
  }

  /** "invoice.pdf.png" goes to the image processor: only the last suffix counts. */
  lemma RouteInnerPdf(name: string)
    requires name == "invoice.pdf.png"
    ensures Route(name) == ImageProcessor
  {
    RouteSuffix(name);
    if LiteralAt(name, 11, ".pdf") {
      LiteralAtChar(name, 11, ".pdf", 2);
      assert false;
    }
  }

  /** A name shorter than ".pdf", such as "pdf", goes to the image processor. */
  lemma RouteShortName(name: string)
    requires |name| < 4
    ensures Route(name) == ImageProcessor
  {
    RouteSuffix(name);
  }

  /** The directory uploads are saved in. */
  const UploadFolder: string := "uploads"

  /** `os.path.join(app.config['UPLOAD_FOLDER'], filename)`. */
  function UploadPath(filename: string): string {
    UploadFolder + "/" + filename
  }

  /** The JSON body `upload_file` answers with: the error object, or the list
      of selected fields. */
  datatype Response = ErrorObject(body: Dict) | ResultList(items: seq<Dict>)

  /** The pages a processor reads from the saved file: every rasterized page
      for `process_pdf`, the one loaded image for `process_image`. */
  function Pages<Image>(processor: Processor, path: string, rasterize: string -> seq<Image>, load: string -> Image): seq<Image> {
    match processor
    case PdfProcessor => rasterize(path)
    case ImageProcessor => [load(path)]
  }

  /** `upload_file()`. `clientName` is the uploaded file's name (empty when
      the form carried no file, which makes the upload falsy), `field` the
      form's `field`, and `secure` stands for `secure_filename`. `ran` tells
      which processor the handler called, if any. */
  method UploadFile<Image>(clientName: string, field: string, secure: string -> string,
                           rasterize: string -> seq<Image>, load: string -> Image, recognize: Image -> string)
    returns (response: Response, ran: Option<Processor>)
    ensures clientName == [] ==> ran == None && response == ErrorObject(map["error" := "No file uploaded"])
    ensures clientName != [] ==> ran == Some(Route(secure(clientName))) && response.ResultList?
    ensures clientName != [] ==>
              var pages := Pages(Route(secure(clientName)), UploadPath(secure(clientName)), rasterize, load);
              && |response.items| == |pages|
              && forall i :: 0 <= i < |pages| ==>
                   && response.items[i].Keys == {field}
                   && response.items[i][field] == Get(AsDict(Parsed(recognize(pages[i]))), field)
  {
    if clientName == [] {
      return ErrorObject(map["error" := "No file uploaded"]), None;
    }
    var filename := secure(clientName);
    var filePath := UploadPath(filename);
    ghost var pages := Pages(Route(filename), filePath, rasterize, load);
    var data: seq<Record>;
    if Route(filename) == PdfProcessor {
      data := Sources.ProcessPdf(filePath, rasterize, recognize);
      ran := Some(PdfProcessor);
    } else {
      data := Sources.ProcessImage(filePath, load, recognize);
      ran := Some(ImageProcessor);
    }
    assert |data| == |pages| && forall i :: 0 <= i < |data| ==> data[i] == Parsed(recognize(pages[i]));
    var dicts := seq(|data|, i requires 0 <= i < |data| => AsDict(data[i]));
    var result := ExtractSelectedField(dicts, field);
    response := ResultList(result);
  }
}
