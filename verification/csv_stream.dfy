/**
  The CSV files as the ingestion loops see them: a sequence of read
  outcomes, each either a record (its fields, already split) or a reader
  error. Running past the end of the sequence is the reader's io.EOF.
  Which reads a loop consumes and how it ends is decided here, once, for
  both files.
 */
module CsvStream {

  datatype Option<T> = None | Some(value: T)

  /** The text of io.EOF; the loops compare the error's text against it. */
  const EofMessage: string := "EOF"

  datatype Read = Record(fields: seq<string>) | Failure(message: string)

  datatype CsvFile = MoviesCsv | GenresCsv

  /** Everything that ends an ingestion run early. */
  datatype Fault =
    | OpenFailed(file: CsvFile, message: string)
    | ReadFailed(file: CsvFile, message: string)
    | ShortRecord(file: CsvFile, width: nat)

  /** The first read of each file is the header; its result, record or
      error, is discarded unseen. */
  function SkipHeader(input: seq<Read>): (data: seq<Read>)
    ensures |input| == 0 ==> data == []
    ensures |input| > 0 ==> input == [input[0]] + data
  {
    if |input| == 0 then [] else input[1..]
  }

  /** The position of the first reader error: the loop reads records up to
      here and then stops, normally or fatally. */
  function StopIndex(data: seq<Read>): (k: nat)
    ensures k <= |data|
    ensures forall i :: 0 <= i < k ==> data[i].Record?
    ensures k < |data| ==> data[k].Failure?
    decreases |data|
  {
    if |data| == 0 || data[0].Failure? then 0 else 1 + StopIndex(data[1..])
  }

  /** The stop is a normal end of file: the data ran out, or the error's
      text is "EOF". */
  predicate EndsAtEof(data: seq<Read>) {
    var k := StopIndex(data);
    k == |data| || data[k].message == EofMessage
  }

  /** How a loop that needs `width` fields per record ends: None when it
      reaches end of file, otherwise the fatal fault it stops at. */
  function Ending(data: seq<Read>, width: nat, file: CsvFile): (e: Option<Fault>)
    ensures e == None <==>
              && EndsAtEof(data)
              && forall i :: 0 <= i < StopIndex(data) ==> |data[i].fields| >= width
    ensures e.Some? ==> e.value.file == file && !e.value.OpenFailed?
    ensures e.Some? && e.value.ReadFailed? ==>
              && StopIndex(data) < |data|
              && data[StopIndex(data)] == Failure(e.value.message)
              && e.value.message != EofMessage
              && forall i :: 0 <= i < StopIndex(data) ==> |data[i].fields| >= width
    ensures e.Some? && e.value.ShortRecord? ==>
              exists j :: && 0 <= j < StopIndex(data)
                          && |data[j].fields| == e.value.width < width
                          && forall i :: 0 <= i < j ==> |data[i].fields| >= width
    decreases |data|
  {
    if |data| == 0 then None
    else match data[0]
      case Failure(msg) => if msg == EofMessage then None else Some(ReadFailed(file, msg))
      case Record(fields) =>
        if |fields| < width then Some(ShortRecord(file, |fields|))
        else
          var rest := Ending(data[1..], width, file);
          assert StopIndex(data) == 1 + StopIndex(data[1..]);
          assert rest.Some? && rest.value.ShortRecord? ==>
            exists j :: && 1 <= j < StopIndex(data)
                        && |data[j].fields| == rest.value.width < width
                        && forall i :: 0 <= i < j ==> |data[i].fields| >= width;
          rest
  }

  /** The records a loop that needs `width` fields per record processes
      in full, in file order. */
  function Consumed(data: seq<Read>, width: nat): (recs: seq<seq<string>>)
    ensures |recs| <= StopIndex(data)
    ensures forall i :: 0 <= i < |recs| ==> data[i] == Record(recs[i]) && |recs[i]| >= width
    ensures forall file :: Ending(data, width, file) == None ==> |recs| == StopIndex(data)
    ensures |recs| < |data| ==> data[|recs|].Failure? || |data[|recs|].fields| < width
    decreases |data|
  {
    if |data| == 0 || data[0].Failure? || |data[0].fields| < width then []
    else [data[0].fields] + Consumed(data[1..], width)
  }

  /** A record wide enough to process neither ends the loop nor changes
      how the rest of the stream ends. */
  lemma AfterWideRecord(data: seq<Read>, width: nat, file: CsvFile)
    requires |data| > 0 && data[0].Record? && |data[0].fields| >= width
    ensures Consumed(data, width) == [data[0].fields] + Consumed(data[1..], width)
    ensures Ending(data, width, file) == Ending(data[1..], width, file)
  {
  }

  /** Two streams that differ only in the text of their fields: the same
      reads in the same places, errors with the same messages, records with
      the same number of fields. */
  ghost predicate SameShape(a: seq<Read>, b: seq<Read>) {
    && |a| == |b|
    && forall i :: 0 <= i < |a| ==>
         && a[i].Failure? == b[i].Failure?
         && (a[i].Failure? ==> a[i] == b[i])
         && (a[i].Record? ==> |a[i].fields| == |b[i].fields|)
  }

  /** How a loop ends, and how many records it consumes, never depends on
      what a field says: a malformed number does not stop the loop. */
  lemma {:induction false} EndingIgnoresFieldText(a: seq<Read>, b: seq<Read>, width: nat, file: CsvFile)
    requires SameShape(a, b)
    ensures Ending(a, width, file) == Ending(b, width, file)
    ensures |Consumed(a, width)| == |Consumed(b, width)|
    decreases |a|
  {
    if |a| > 0 && a[0].Record? && |a[0].fields| >= width {
      assert SameShape(a[1..], b[1..]) by {
        forall i | 0 <= i < |a| - 1 ensures a[1..][i] == a[i + 1] && b[1..][i] == b[i + 1] { }
      }
      EndingIgnoresFieldText(a[1..], b[1..], width, file);
    }
  }
}
