# Invoice field extraction: a Dafny model of the text side

The backend of this invoice extractor reads a PDF, an image or a webcam frame,
recognises its text with Tesseract and parses that text into an invoice record.
This project models the parts of `Backend/invoice.py` and
`Backend/integrate.py` that work on text and on lists of records. It proves
what they compute.

- `PyText`: the ASCII versions of the Python `str` built-ins the code relies on:
  `isspace` (the same characters as the regex class `\s`), `lower`, `strip`,
  `split('\n')`, `sub in s` and `endswith`.
- `InvoicePattern`: the case-insensitive regex
  `invoice\s*(?:#|no\.?|number)?\s*[:#]?\s*(\S+)`. It is written as a
  backtracking matcher that tries candidate end positions in the order
  Python's `re` engine tries them: greedy `\s*` longest first, an optional
  group before its absence, `no.` before `no`. `Search` is `re.search`, the
  leftmost match. The module also has a deterministic description of the same
  match (`Reference`, `LeftmostMatch`), and lemmas prove the two agree. Because
  of backtracking, `Invoice No` captures `No` and `invoice:` captures `:`.
- `InvoiceParser`: `parse_invoice_text`. It splits the text on line feeds and
  strips each line. On every line, the invoice pattern and the
  `order`/`date`/`total` chain run independently. `raw_text` is the original
  text. The method `ParseInvoiceText` keeps the source's loop over lines and is
  proved equal to the declarative record `Parsed`. The lemmas about `Parsed`
  state what the record holds.
- `InvoiceExamples`: worked cases: specific lines and texts and the records
  they produce.
- `Sources`: `process_pdf`, `process_image` and `process_webcam`. Image
  preprocessing plus Tesseract is a function `recognize` from an image to its
  text. The PDF rasterizer and the image loader are functions from a path. The
  webcam is the answer of `isOpened()` plus a finite sequence of polls, each
  holding the result of `read()` and the `waitKey` value.
- `Integrate`: `extract_selected_field`, the `.pdf`-suffix routing and the
  no-file branch of the upload handler `upload_file`.

Three points of the code that are easy to misread:

- Every line classified under `order_number`, `date` or `total` overwrites
  that key. The last such line wins, exactly as for `invoice_number`; it is not
  the first.
- The invoice check and the `order`/`date`/`total` chain are independent. So
  "Invoice Date: 2024" sets `invoice_number` to `Date:` and also sets `date`.
- When the camera cannot be opened, `process_webcam` returns without calling
  `cap.release()`. The model reports `released == false` on that path.

## Model

| member | source | states |
|---|---|---|
| `PyText.StripShape` | Backend/invoice.py:55 | `strip` removes only leading and trailing whitespace, and what it keeps neither starts nor ends with whitespace |
| `PyText.JoinSplit` | Backend/invoice.py:49 | joining the pieces of `split('\n')` with line feeds gives back the text, so no character is lost |
| `PyText.SplitFirst` | Backend/invoice.py:49 | a piece that ends at the first line feed comes off the front of the split |
| `PyText.ContainsLower` | Backend/invoice.py:61-66 | `word in line.lower()` is the same as a case-folding search for the word in the line |
| `InvoicePattern.AfterKeywordIsReference` | Backend/invoice.py:52 | the backtracking matcher for everything after `invoice` returns the same group as the deterministic description |
| `InvoicePattern.ReferenceShape` | Backend/invoice.py:52 | after the keyword there is a match exactly when some non-whitespace character follows, and the group is then a whole whitespace-free token |
| `InvoicePattern.SearchIsLeftmost` | Backend/invoice.py:57 | `re.search` finds the leftmost keyword followed by a non-whitespace character, finds nothing exactly when there is none, and captures a whole token after that keyword |
| `InvoicePattern.SearchIgnoresCase` | Backend/invoice.py:52 | `re.IGNORECASE`: two lines that differ only in letter case give the same match and group |
| `InvoicePattern.LeftmostMatchIsLeftmost` | Backend/invoice.py:57 | the match position is the first one where the pattern matches, and there is none exactly when no position matches |
| `InvoiceParser.InvoiceTokenShape` | Backend/invoice.py:57-59 | a line yields an invoice number exactly when the pattern matches somewhere in it, and the value stored is then non-empty and free of whitespace |
| `InvoiceParser.BranchPriority` | Backend/invoice.py:61-66 | a line writes `order_number` iff it contains "order"; `date` iff it contains "date" but not "order"; `total` iff it contains "total" but neither of the others; so it writes at most one of them, whatever the word positions |
| `InvoiceParser.FieldNamedName` | Backend/invoice.py:59-68 | each of the five dict keys names exactly one field |
| `InvoiceParser.ParseLine` | Backend/invoice.py:55-66 | one loop iteration overwrites each key the stripped line writes and leaves every other key as it was |
| `InvoiceParser.ParseInvoiceText` | Backend/invoice.py:48-69 | the loop over split and stripped lines yields the declarative record `Parsed(text)`, and `raw_text` holds the text |
| `InvoiceParser.FieldsUpToStep` | Backend/invoice.py:54-66 | applying line n's writes to the record of the first n lines gives the record of the first n+1 lines |
| `InvoiceParser.ParsedRawText` | Backend/invoice.py:68 | `raw_text` is always present and equals the input text exactly, neither split nor stripped |
| `InvoiceParser.ParsedHasField` | Backend/invoice.py:50-66 | `invoice_number`, `order_number`, `date` or `total` is present exactly when some stripped line writes it |
| `InvoiceParser.ParsedLastWins` | Backend/invoice.py:54-66 | each key holds what the last line writing it gave; for `order_number`, `date` and `total` that is the whole stripped line |
| `InvoiceParser.LastContributionFrom` | Backend/invoice.py:54-66 | every stored value comes from a line that writes the key, and no later line writes that key |
| `InvoiceParser.ParsedOnlyRawText` | Backend/invoice.py:50-68 | when no line matches anything, `raw_text` is the only key |
| `InvoiceExamples.InvoiceHashColon` | Backend/invoice.py:52-59 | "Invoice #: INV-2024-001" yields the invoice number "INV-2024-001" |
| `InvoiceExamples.InvoiceNoAlone` | Backend/invoice.py:52-59 | "Invoice No" yields "No": the prefix gives its characters back to the capture |
| `InvoiceExamples.InvoiceColonAlone` | Backend/invoice.py:52-59 | "invoice:" yields ":" |
| `InvoiceExamples.InvoiceNumberWord` | Backend/invoice.py:52-59 | "Invoice Number A2" yields "A2" |
| `InvoiceExamples.LastInvoiceNumberWins` | Backend/invoice.py:54-59 | "Invoice No: A1" followed by "Invoice Number A2" gives `invoice_number` "A2" |
| `InvoiceExamples.InvoiceDateLine` | Backend/invoice.py:57-66 | "Invoice Date: 2024" sets `invoice_number` to "Date:" and `date` to the whole line, and sets neither `order_number` nor `total` |
| `InvoiceExamples.OrderThenTotal` | Backend/invoice.py:54-66 | "Order #12345 confirmed" then "Total: $99.00" gives each whole line under `order_number` and `total`, and no `date` key |
| `Sources.ProcessPdf` | Backend/invoice.py:72-80 | one record per rasterized page, in page order; record i is the parse of page i's recognised text, with that text as `raw_text` |
| `Sources.ProcessImage` | Backend/invoice.py:83-86 | always exactly one record: the parse of the loaded image's recognised text |
| `Sources.LowByte` | Backend/invoice.py:107 | `key & 0xFF` lies in 0..255, keeps byte values unchanged and differs from the key by a multiple of 256 |
| `Sources.FirstStopIsFirst` | Backend/invoice.py:100-119 | the poll that ends the loop is the first failed read, `'s'` or `'q'`, and there is none exactly when no poll is one |
| `Sources.ProcessWebcam` | Backend/invoice.py:89-123 | nothing when the camera does not open (and no release); otherwise the loop ends at the first failed read, `'s'` or `'q'` and releases the camera; exactly one record, parsed from that frame, iff it ended on `'s'`; never more than one |
| `Integrate.AsDict` | Backend/invoice.py:50-68 | a parsed record as a dict has keys among `invoice_number`, `order_number`, `date`, `total`, `raw_text`, each holding the field's value |
| `Integrate.ExtractSelectedField` | Backend/integrate.py:33-37 | the output has the input's length; element i has exactly the key `field`, holding record i's value for it or "Not Found" |
| `Integrate.SelectFromParsed` | Backend/integrate.py:36 | selecting `raw_text` from a parsed record gives the recognised text; selecting another field gives the stored value or "Not Found" when no line wrote it |
| `Integrate.SelectUnknownField` | Backend/integrate.py:36 | a key a parsed record can never hold yields "Not Found" |
| `Integrate.RouteSuffix` | Backend/integrate.py:24-27 | a file goes to `process_pdf` exactly when its last four characters are ".pdf" in any case, and to `process_image` otherwise |
| `Integrate.RouteUpperCasePdf` | Backend/integrate.py:24-25 | "Invoice.PDF" goes to `process_pdf` |
| `Integrate.RouteInnerPdf` | Backend/integrate.py:24-27 | "invoice.pdf.png" goes to `process_image` |
| `Integrate.RouteShortName` | Backend/integrate.py:24-27 | a name shorter than four characters goes to `process_image` |
| `Integrate.UploadFile` | Backend/integrate.py:14-31 | an empty upload answers `{'error': 'No file uploaded'}` and runs no processor; otherwise the routed processor runs on the saved path, and the answer has one dict per page the processor read; dict i has only the key `field`, holding that page's value for it or "Not Found" |

## Left out

- Image preprocessing (`preprocess_image`: grayscale, bilateral filter, 2x resize, min-max normalisation, 1-degree rotation) and Tesseract are not modelled. Together they are the function `recognize` from an image to text, applied alike to PDF pages, loaded images and webcam frames. The RGB-to-BGR conversion that `process_pdf` applies to each page is folded into `rasterize`, so pages reach `recognize` in the loader's colour order.
- Exceptions raised by `convert_from_path`, by Tesseract, or by `cvtColor` on a failed `cv2.imread` are not modelled. The model assumes these collaborators return, so the all-or-nothing failure of a multi-page job is outside it.
- The Tesseract path setting and the creation of the `captured_images` and `uploads` directories are left out. They are environment setup.
- Camera I/O is reduced to polls: `imshow`, `imwrite` of the saved frame, `print` and `destroyAllWindows` are not modelled. Release and window teardown are the single flag `released`.
- Sources.ProcessWebcam: the camera is a finite sequence of polls, so a camera that never fails, never sees `'s'` and never sees `'q'` is represented by the exit `Polling` rather than by a call that never returns.
- `save_to_json` and the interactive `main` menu are left out. They are file and console I/O.
- Flask itself is left out: routing, `request`, `jsonify` serialisation, `render_template`, `file.save` and `app.run`. `secure_filename` is a function parameter.
- Integrate.UploadFile: the form field is always a string. The case where `request.form.get("field")` returns `None` is not modelled, and neither is the 400 answer Flask gives when the request has no `file` part.
- Integrate.UploadPath: `os.path.join` is modelled with the POSIX separator `/`.
- Python's full Unicode `lower`, `strip`, `isspace` and `\s` are left out. The model uses their ASCII behaviour.
