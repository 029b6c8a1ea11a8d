/** The documents card of a contact: how a file size is written, which icon a document gets, and the
    list of documents the card keeps, which grows at the front on an upload and loses an id on a
    deletion. */
module ContactDocuments {
  import opened Wrappers
  import opened Text
  import DocumentActions

  type DocumentItem = DocumentActions.DocumentItem

  const KIB := 1024
  const MIB := 1024 * 1024

  const UPLOAD_FAILED := "Erreur lors de l'upload"
  const DELETE_FAILED := "Erreur lors de la suppression"

  // ---------------------------------------------------------------------------
  // formatSize

  /** The size as `formatSize` words it: whole bytes, whole kibibytes, or tenths of a mebibyte. */
  datatype Size = Bytes(n: nat) | Kilo(k: nat) | MegaTenths(t: nat)

  /** The unit and the count `formatSize` picks for a size in bytes. `toFixed` rounds `bytes / 1024`
      and `bytes / 1048576` to the nearest whole number or tenth, a tie going up (section 21.1.3.3 of
      ECMA-262); both quotients are exact in floating point for the sizes a file can have. */
  function SizeOf(bytes: nat): (r: Size)
    ensures r.Bytes? <==> bytes < KIB
    ensures r.Bytes? ==> r.n == bytes
    ensures r.Kilo? <==> KIB <= bytes < MIB
    ensures r.Kilo? ==> r.k * KIB - KIB / 2 <= bytes < r.k * KIB + KIB / 2
    ensures r.MegaTenths? ==> r.t * MIB - MIB / 2 <= bytes * 10 < r.t * MIB + MIB / 2
  {
    if bytes < KIB then Bytes(bytes)
    else if bytes < MIB then
      RoundHalfUp(bytes, KIB);
      Kilo((2 * bytes + KIB) / (2 * KIB))
    else
      RoundHalfUp(10 * bytes, MIB);
      MegaTenths((2 * (10 * bytes) + MIB) / (2 * MIB))
  }

  /** Rounding `x / d` to the nearest whole number, a tie going up, as `(2x + d) div 2d` does: the
      result times `d` is within half of `d` of `x`. */
  lemma RoundHalfUp(x: nat, d: nat)
    requires d > 0 && d % 2 == 0
    ensures var q := (2 * x + d) / (2 * d); q * d - d / 2 <= x < q * d + d / 2
  {
    var q := (2 * x + d) / (2 * d);
    var m := (2 * x + d) % (2 * d);
    assert 2 * x + d == q * (2 * d) + m && 0 <= m < 2 * d;
    assert q * (2 * d) == 2 * (q * d);
  }

  /** The rounded count never leaves its unit's range: 1 to 1024 Ko, and at least 1.0 Mo. */
  lemma SizeBounds(bytes: nat)
    ensures SizeOf(bytes).Kilo? ==> 1 <= SizeOf(bytes).k <= 1024
    ensures SizeOf(bytes).MegaTenths? ==> SizeOf(bytes).t >= 10
  {
  }

  /** `formatSize(bytes)`: the count `SizeOf` picks, in decimal, then its unit; mebibytes with one
      decimal. The number is its decimal text, with no leading zero, and reads back as that count. */
  function FormatSize(bytes: nat): (r: string)
    ensures var z := SizeOf(bytes);
            && (z.Bytes? ==> |r| > 2 && r[|r| - 2..] == " o" && IsDigits(r[..|r| - 2]) && DigitsValue(r[..|r| - 2]) == z.n)
            && (z.Kilo? ==> |r| > 3 && r[|r| - 3..] == " Ko" && IsDigits(r[..|r| - 3]) && DigitsValue(r[..|r| - 3]) == z.k)
            && (z.MegaTenths? ==> && |r| > 5 && r[|r| - 3..] == " Mo" && r[|r| - 5] == '.'
                                  && IsDigits(r[..|r| - 5]) && DigitsValue(r[..|r| - 5]) == z.t / 10
                                  && r[|r| - 4] == DigitChar(z.t % 10))
    ensures var z := SizeOf(bytes);
            && (z.Bytes? ==> |r| > 2 && r[..|r| - 2] == NatToString(z.n))
            && (z.Kilo? ==> |r| > 3 && r[..|r| - 3] == NatToString(z.k))
            && (z.MegaTenths? ==> |r| > 5 && r[..|r| - 5] == NatToString(z.t / 10))
  {
    match SizeOf(bytes)
    case Bytes(n) =>
      NumberThenSuffix(n, " o");
      NatToString(n) + " o"
    case Kilo(k) =>
      NumberThenSuffix(k, " Ko");
      NatToString(k) + " Ko"
    case MegaTenths(t) =>
      var suffix := "." + [DigitChar(t % 10)] + " Mo";
      NumberThenSuffix(t / 10, suffix);
      NatToString(t / 10) + suffix
  }

  /** A number's decimal text followed by a suffix: the part before the suffix is that text and
      reads back as the number. */
  lemma NumberThenSuffix(n: nat, suffix: string)
    ensures var s := NatToString(n) + suffix;
            && |s| > |suffix| && s[..|s| - |suffix|] == NatToString(n) && s[|s| - |suffix|..] == suffix
            && IsDigits(s[..|s| - |suffix|]) && DigitsValue(s[..|s| - |suffix|]) == n
  {
    var s := NatToString(n) + suffix;
    assert s[..|s| - |suffix|] == NatToString(n);
    assert s[|s| - |suffix|..] == suffix;
    NatToStringRoundTrip(n);
  }

  /** The text ends with the unit its range calls for: " o" below 1024 bytes, " Ko" below 1 MiB,
      " Mo" from there on, and the number before it is all digits. */
  lemma {:induction false} FormatSizeUnit(bytes: nat)
    ensures var s := FormatSize(bytes);
            && (bytes < KIB ==> |s| > 2 && s[|s| - 2..] == " o" && IsDigits(s[..|s| - 2]))
            && (KIB <= bytes < MIB ==> |s| > 3 && s[|s| - 3..] == " Ko" && IsDigits(s[..|s| - 3]))
            && (bytes >= MIB ==> |s| > 5 && s[|s| - 3..] == " Mo" && s[|s| - 5] == '.')
  {
    var s := FormatSize(bytes);
    match SizeOf(bytes)
    case Bytes(n) =>
      assert s[..|s| - 2] == NatToString(n);
    case Kilo(k) =>
      assert s[..|s| - 3] == NatToString(k);
    case MegaTenths(t) =>
  }

  // ---------------------------------------------------------------------------
  // DocIcon

  /** `contentType.startsWith("image/")`: the image icon is used exactly for content types of the
      image family, "image/" followed by any subtype. */
  function IsImage(contentType: string): (r: bool)
    ensures r <==> exists subtype :: contentType == "image/" + subtype
  {
    if StartsWith(contentType, "image/") then
      assert contentType == "image/" + contentType[6..];
      true
    else
      false
  }

  /** A PNG gets the image icon and a PDF the document icon. */
  lemma IconExamples()
    ensures IsImage("image/png") && !IsImage("application/pdf")
  {
    assert "image/png" == "image/" + "png";
    assert "application/pdf"[0] != ("image/" + "")[0];
  }

  // ---------------------------------------------------------------------------
  // The document list

  /** `prev.filter((d) => d.id !== id)` */
  function RemoveId(docs: seq<DocumentItem>, id: string): (r: seq<DocumentItem>)
    ensures |r| <= |docs|
    ensures forall d :: d in r <==> d in docs && d.id != id
  {
    if docs == [] then []
    else if docs[0].id != id then [docs[0]] + RemoveId(docs[1..], id)
    else RemoveId(docs[1..], id)
  }

  /** Filtering a list is filtering each part of it: the kept documents stay in their order. */
  lemma {:induction false} RemoveIdAppend(a: seq<DocumentItem>, b: seq<DocumentItem>, id: string)
    ensures RemoveId(a + b, id) == RemoveId(a, id) + RemoveId(b, id)
  {
    if a == [] {
      assert a + b == b;
    } else {
      assert (a + b)[0] == a[0];
      assert (a + b)[1..] == a[1..] + b;
      RemoveIdAppend(a[1..], b, id);
    }
  }

  /** A list with no document of that id is left as it is. */
  lemma {:induction false} RemoveIdAbsent(docs: seq<DocumentItem>, id: string)
    requires forall d :: d in docs ==> d.id != id
    ensures RemoveId(docs, id) == docs
  {
    if docs != [] {
      assert docs[0] in docs;
      assert forall d :: d in docs[1..] ==> d in docs;
      RemoveIdAbsent(docs[1..], id);
    }
  }

  /** The upload route's answer as `handleFileChange` reads it: the new document, or a refusal with
      the body's `error` when there is one (a network failure or a body that is not JSON gives none). */
  datatype UploadReply = Uploaded(doc: DocumentItem) | Refused(error: Option<string>)

  /** The state of `ContactDocuments`: one field per `useState` variable. */
  class DocumentList {
    var documents: seq<DocumentItem>
    var uploading: bool
    var error: string
    var deletingId: Option<string>

    constructor(initialDocuments: seq<DocumentItem>)
      ensures documents == initialDocuments && !uploading && error == "" && deletingId.None?
    {
      documents, uploading, error, deletingId := initialDocuments, false, "", None;
    }

    /** `handleFileChange(e)`: without a chosen file nothing happens and nothing is posted. Otherwise
        the error is cleared, the file is posted, and the reply either puts the new document at the
        front or shows the refusal's message (a fixed one when it has none). */
    method HandleFileChange(hasFile: bool, reply: UploadReply) returns (posted: bool)
      modifies this
      ensures posted == hasFile
      ensures !hasFile ==> documents == old(documents) && error == old(error) && uploading == old(uploading)
      ensures hasFile && reply.Uploaded? ==> documents == [reply.doc] + old(documents) && error == ""
      ensures hasFile && reply.Refused? ==> documents == old(documents) && error == reply.error.GetOr(UPLOAD_FAILED)
      ensures hasFile ==> !uploading
      ensures deletingId == old(deletingId)
    {
      if !hasFile {
        return false;
      }
      posted := true;
      error := "";
      uploading := true;
      if reply.Uploaded? {
        documents := [reply.doc] + documents;
      } else {
        error := reply.error.GetOr(UPLOAD_FAILED);
      }
      uploading := false;
    }

    /** `handleDelete(e, id)`: `ok` is whether `deleteContactDocument(id)` resolved. On success every
        entry with that id goes and the others stay in order; on failure the list stays and the
        error is set. In both cases no deletion is pending afterwards. */
    method HandleDelete(id: string, ok: bool)
      modifies this
      ensures ok ==> documents == RemoveId(old(documents), id) && error == old(error)
      ensures !ok ==> documents == old(documents) && error == DELETE_FAILED
      ensures deletingId.None?
      ensures uploading == old(uploading)
    {
      deletingId := Some(id);
      if ok {
        documents := RemoveId(documents, id);
      } else {
        error := DELETE_FAILED;
      }
      deletingId := None;
    }
  }

  /** Uploading a document whose id is new and then deleting it gives back the list as it was. */
  lemma {:induction false} UploadThenDeleteRestores(docs: seq<DocumentItem>, doc: DocumentItem)
    requires forall d :: d in docs ==> d.id != doc.id
    ensures RemoveId([doc] + docs, doc.id) == docs
  {
    RemoveIdAppend([doc], docs, doc.id);
    assert RemoveId([doc], doc.id) == [];
    RemoveIdAbsent(docs, doc.id);
  }
}
