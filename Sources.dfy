/**
 The source adapters `process_pdf`, `process_image` and `process_webcam`.
 Each page or frame goes through `extract_text_from_image(..., augment=True)`
 and then `parse_invoice_text`. The image preprocessing and Tesseract are
 the function `recognize` from an image to its recognised text. The PDF
 rasterizer (`convert_from_path`, followed by the RGB-to-BGR conversion of
 each page) and the image loader (`cv2.imread`) are functions from a file
 path. The webcam is the answer to `isOpened()` and
 a finite sequence of polls.
 */
module Sources {
  import opened Wrappers
  import opened InvoiceParser

  /** `process_pdf(file_path)`: one record per rasterized page, in page order. */
  method ProcessPdf<Image>(filePath: string, rasterize: string -> seq<Image>, recognize: Image -> string)
    returns (allData: seq<Record>)
    ensures |allData| == |rasterize(filePath)|
    ensures forall i :: 0 <= i < |allData| ==> allData[i] == Parsed(recognize(rasterize(filePath)[i]))
    ensures forall i :: 0 <= i < |allData| ==>
              RawText in allData[i] && allData[i][RawText] == recognize(rasterize(filePath)[i])
  {
    var images := rasterize(filePath);
    allData := [];
    for i := 0 to |images|
      invariant |allData| == i
      invariant forall k :: 0 <= k < i ==> allData[k] == Parsed(recognize(images[k]))
    {
      var data := ParseInvoiceText(recognize(images[i]));
      allData := allData + [data];
    }
    forall i | 0 <= i < |allData|
      ensures RawText in allData[i] && allData[i][RawText] == recognize(images[i])
    {
      ParsedRawText(recognize(images[i]));
    }
  }

  /** `process_image(file_path)`: always a list of exactly one record. */
  method ProcessImage<Image>(filePath: string, load: string -> Image, recognize: Image -> string)
    returns (result: seq<Record>)
    ensures |result| == 1 && result[0] == Parsed(recognize(load(filePath)))
    ensures RawText in result[0] && result[0][RawText] == recognize(load(filePath))
  {
    var image := load(filePath);
    var data := ParseInvoiceText(recognize(image));
    result := [data];
  }

  // ---------------------------------------------------------------------------
  // The webcam
  // ---------------------------------------------------------------------------

  /** One turn of the capture loop: whether `cap.read()` succeeded, the frame
      it read, and the value `cv2.waitKey(1)` returned afterwards (`key` is
      not looked at when the read failed, as the loop stops first). */
  datatype Poll<Image> = Poll(ret: bool, frame: Image, key: int)

  /** How `process_webcam` ended. `NotOpened`: `isOpened()` was false.
      `ReadFailed`, `Saved`, `Quit`: the three `break`s of the loop.
      `Polling`: the polls ran out without any of them, so the loop is still
      running and the call has not returned. */
  datatype Exit = NotOpened | ReadFailed | Saved | Quit | Polling

  const KeySave: int := 's' as int
  const KeyQuit: int := 'q' as int

  /** `key & 0xFF`: the low byte of the value `waitKey` returns (`-1` when no
      key was pressed gives 255, which is neither `'s'` nor `'q'`). */
  function LowByte(key: int): (b: int)
    ensures 0 <= b < 256
    ensures 0 <= key < 256 ==> b == key
    ensures (key - b) % 256 == 0
  {
    key % 256
  }

  /** A poll on which the loop `break`s. */
  predicate Stops<Image>(p: Poll<Image>) {
    !p.ret || LowByte(p.key) == KeySave || LowByte(p.key) == KeyQuit
  }

  /** How the loop ends at a poll on which it stops. */
  function ExitOf<Image>(p: Poll<Image>): Exit {
    if !p.ret then ReadFailed
    else if LowByte(p.key) == KeySave then Saved
    else if LowByte(p.key) == KeyQuit then Quit
    else Polling
  }

  /** The first poll at or after `from` on which the loop stops. */
  function FirstStop<Image>(polls: seq<Poll<Image>>, from: nat): (i: Option<nat>)
    ensures i.Some? ==> from <= i.value < |polls| && Stops(polls[i.value])
    decreases |polls| - from
  {
    if from >= |polls| then None
    else if Stops(polls[from]) then Some(from)
    else FirstStop(polls, from + 1)
  }

  /** `FirstStop` finds the leftmost stopping poll, and finds none exactly
      when no poll from `from` on stops. */
  lemma {:induction false} FirstStopIsFirst<Image>(polls: seq<Poll<Image>>, from: nat)
    ensures FirstStop(polls, from).None? <==> forall k :: from <= k < |polls| ==> !Stops(polls[k])
    ensures FirstStop(polls, from).Some? ==>
              var i := FirstStop(polls, from).value;
              from <= i < |polls| && Stops(polls[i]) && forall k :: from <= k < i ==> !Stops(polls[k])
    decreases |polls| - from
  {
    if from < |polls| && !Stops(polls[from]) {
      FirstStopIsFirst(polls, from + 1);
    }
  }

  /** `process_webcam()`. `isOpened` is what `cap.isOpened()` answers. The
      result says how the call ended, the records it returns, and whether it
      reached `cap.release()` and `cv2.destroyAllWindows()`. A record is
      returned exactly when the first poll that stops the loop is a
      successful read with the key `'s'`, and it is parsed from that poll's
      frame. */
  method ProcessWebcam<Image>(isOpened: bool, polls: seq<Poll<Image>>, recognize: Image -> string)
    returns (exit: Exit, capturedData: seq<Record>, released: bool)
    ensures !isOpened ==> exit == NotOpened && capturedData == [] && !released
    ensures isOpened && FirstStop(polls, 0).None? ==> exit == Polling && capturedData == [] && !released
    ensures isOpened && FirstStop(polls, 0).Some? ==>
              var i := FirstStop(polls, 0).value;
              && exit == ExitOf(polls[i]) && released
              && capturedData == if exit == Saved then [Parsed(recognize(polls[i].frame))] else []
    ensures |capturedData| <= 1 && (|capturedData| == 1 <==> exit == Saved)
  {
    exit, capturedData, released := Polling, [], false;
    if !isOpened {
      exit := NotOpened;
      return;
    }
    var i := 0;
    while i < |polls|
      invariant 0 <= i <= |polls|
      invariant FirstStop(polls, i) == FirstStop(polls, 0)
      invariant exit == Polling && capturedData == []
    {
      var poll := polls[i];
      if !poll.ret {
        exit := ReadFailed;
        break;
      }
      var key := LowByte(poll.key);
      if key == KeySave {
        var data := ParseInvoiceText(recognize(poll.frame));
        capturedData := [data];
        exit := Saved;
        break;
      } else if key == KeyQuit {
        exit := Quit;
        break;
      }
      i := i + 1;
    }
    if exit == Polling {
      return;
    }
    released := true;
  }
}
