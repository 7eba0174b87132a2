/**
 * `GET /api/v1/pdf/download?clinicName=X`: check the clinic name, render
 * the personalised PDF and send it as an attachment whose name is derived
 * from the clinic name by a chain of string replacements.
 */
module PdfDownloadRoute {

  import opened Wrappers
  import opened Js
  import opened Schemas

  // ---------------------------------------------------------------------
  // The file-name chain
  // ---------------------------------------------------------------------

  /** NFD decomposition followed by removal of U+0300 to U+036F, on one
      character that has already been lower-cased: the accented Latin-1
      letters lose their mark, every other character of a valid clinic name
      is its own decomposition or (U+2000, U+2001) decomposes to another
      space that the next stage replaces in the same way. */
  function StripMark(c: char): (r: char)
    ensures 'a' <= c <= 'z' || '0' <= c <= '9' || c == '-' ==> r == c
  {
    if 'à' <= c <= 'å' then 'a'
    else if c == 'ç' then 'c'
    else if 'è' <= c <= 'ë' then 'e'
    else if 'ì' <= c <= 'ï' then 'i'
    else if c == 'ñ' then 'n'
    else if 'ò' <= c <= 'ö' then 'o'
    else if 'ù' <= c <= 'ü' then 'u'
    else if c == 'ý' || c == 'ÿ' then 'y'
    else c
  }

  /** `.normalize('NFD')` followed by removing the combining marks U+0300 to U+036F. */
  function StripMarks(s: string): (r: string) {
    seq(|s|, k requires 0 <= k < |s| => StripMark(s[k]))
  }

  /** The characters a file name may keep. */
  predicate IsSafeChar(c: char) {
    'a' <= c <= 'z' || '0' <= c <= '9' || c == '-'
  }

  /** `.replace(/[^a-z0-9-]/g, '-')`. */
  function ReplaceUnsafe(s: string): (r: string) {
    seq(|s|, k requires 0 <= k < |s| => if IsSafeChar(s[k]) then s[k] else '-')
  }

  predicate AllSafe(s: string) {
    forall k :: 0 <= k < |s| ==> IsSafeChar(s[k])
  }

  /** No two neighbouring characters are both `-`. */
  predicate NoDoubleDash(s: string) {
    forall k :: 0 <= k < |s| - 1 ==> !(s[k] == '-' && s[k + 1] == '-')
  }

  /** `.replace(/-+/g, '-')`: every run of dashes becomes one dash. */
  function CollapseDashes(s: string): (r: string) {
    if |s| <= 1 then s
    else if s[0] == '-' && s[1] == '-' then CollapseDashes(s[1..])
    else [s[0]] + CollapseDashes(s[1..])
  }

  /** `.replace(/^-|-$/g, '')`: one leading and one trailing dash go. */
  function TrimDashes(s: string): (r: string) {
    var t := if |s| > 0 && s[0] == '-' then s[1..] else s;
    if |t| > 0 && t[|t| - 1] == '-' then t[..|t| - 1] else t
  }

  /** `.substring(0, 50)`. */
  function Take(s: string, n: nat): (r: string) {
    if |s| <= n then s else s[..n]
  }

  const MaxFileNameLength: nat := 50

  /** The whole chain, from the validated clinic name to the file name. */
  function SafeFileName(name: string): string {
    Take(TrimDashes(CollapseDashes(ReplaceUnsafe(StripMarks(ToLower(name))))), MaxFileNameLength)
  }

  // ---------------------------------------------------------------------
  // Properties of the stages
  // ---------------------------------------------------------------------

  /** Collapsing keeps the first and last characters, keeps a string of
      safe characters safe, leaves no two dashes together, and changes nothing in a string that
      had none. */
  lemma {:induction false} CollapseDashesSpec(s: string)
    ensures var r := CollapseDashes(s);
            && |r| <= |s|
            && (|s| > 0 ==> |r| > 0 && r[0] == s[0])
            && (|s| > 0 ==> r[|r| - 1] == s[|s| - 1])
            && (AllSafe(s) ==> AllSafe(r))
            && NoDoubleDash(r)
            && (NoDoubleDash(s) ==> r == s)
    decreases |s|
  {
    if |s| > 1 {
      var tail := CollapseDashes(s[1..]);
      CollapseDashesSpec(s[1..]);
      if AllSafe(s) {
        assert AllSafe(s[1..]) by {
          assert forall k :: 0 <= k < |s| - 1 ==> s[1..][k] == s[k + 1];
        }
      }
      if !(s[0] == '-' && s[1] == '-') {
        var r := [s[0]] + tail;
        assert r[1..] == tail;
        assert NoDoubleDash(r) by {
          forall k | 0 <= k < |r| - 1 ensures !(r[k] == '-' && r[k + 1] == '-') {
            if k > 0 {
              assert r[k] == tail[k - 1] && r[k + 1] == tail[k];
            }
          }
        }
        if NoDoubleDash(s) {
          assert NoDoubleDash(s[1..]) by {
            forall k | 0 <= k < |s| - 2 ensures !(s[1..][k] == '-' && s[1..][k + 1] == '-') {
              assert s[1..][k] == s[k + 1] && s[1..][k + 1] == s[k + 2];
            }
          }
          assert r == [s[0]] + s[1..] == s;
        }
      }
    }
  }

  /** After collapsing, trimming leaves a string that neither starts nor
      ends with a dash, still has no two dashes together, and keeps only
      characters of its input. */
  lemma TrimDashesSpec(s: string)
    requires NoDoubleDash(s)
    ensures var r := TrimDashes(s);
            && (|r| > 0 ==> r[0] != '-' && r[|r| - 1] != '-')
            && NoDoubleDash(r)
            && (AllSafe(s) ==> AllSafe(r))
  {
    var i := if |s| > 0 && s[0] == '-' then 1 else 0;
    var r := TrimDashes(s);
    assert r == s[i..i + |r|];
    if |r| > 0 && i == 1 {
      assert r[0] == s[1];
    }
    assert forall k :: 0 <= k < |r| ==> r[k] == s[i + k];
  }

  /** A prefix keeps the shape of its string, apart from its last character. */
  lemma TakeSpec(s: string, n: nat)
    ensures var r := Take(s, n);
            && |r| <= n && r == s[..|r|]
            && (NoDoubleDash(s) ==> NoDoubleDash(r))
            && (AllSafe(s) ==> AllSafe(r))
            && (|r| > 0 ==> r[0] == s[0])
  {
    var r := Take(s, n);
    assert forall k :: 0 <= k < |r| ==> r[k] == s[k];
  }

  /** The first two stages act character by character. */
  lemma PerCharacterStages(name: string)
    ensures var s := ReplaceUnsafe(StripMarks(ToLower(name)));
            && |s| == |name|
            && forall k :: 0 <= k < |name| ==>
                 s[k] == (if IsSafeChar(StripMark(ToLowerChar(name[k]))) then StripMark(ToLowerChar(name[k])) else '-')
  {
  }

  /** The file name uses only `a-z`, `0-9` and `-`, never has two dashes
      together, never starts with a dash, and is at most 50 characters. */
  lemma SafeFileNameShape(name: string)
    ensures var f := SafeFileName(name);
            && AllSafe(f)
            && NoDoubleDash(f)
            && (|f| > 0 ==> f[0] != '-')
            && |f| <= MaxFileNameLength
  {
    var replaced := ReplaceUnsafe(StripMarks(ToLower(name)));
    assert AllSafe(replaced);
    var collapsed := CollapseDashes(replaced);
    CollapseDashesSpec(replaced);
    var trimmed := TrimDashes(collapsed);
    TrimDashesSpec(collapsed);
    TakeSpec(trimmed, MaxFileNameLength);
  }

  /** Accented letters, upper or lower case, become their base letter. */
  lemma AccentsFolded(c: char)
    ensures ('À' <= c <= 'Å' || 'à' <= c <= 'å') ==> StripMark(ToLowerChar(c)) == 'a'
    ensures (c == 'Ç' || c == 'ç') ==> StripMark(ToLowerChar(c)) == 'c'
    ensures ('È' <= c <= 'Ë' || 'è' <= c <= 'ë') ==> StripMark(ToLowerChar(c)) == 'e'
    ensures ('Ì' <= c <= 'Ï' || 'ì' <= c <= 'ï') ==> StripMark(ToLowerChar(c)) == 'i'
    ensures (c == 'Ñ' || c == 'ñ') ==> StripMark(ToLowerChar(c)) == 'n'
    ensures ('Ò' <= c <= 'Ö' || 'ò' <= c <= 'ö') ==> StripMark(ToLowerChar(c)) == 'o'
    ensures ('Ù' <= c <= 'Ü' || 'ù' <= c <= 'ü') ==> StripMark(ToLowerChar(c)) == 'u'
    ensures (c == 'Ý' || c == 'ý' || c == 'ÿ') ==> StripMark(ToLowerChar(c)) == 'y'
    ensures 'A' <= c <= 'Z' ==> StripMark(ToLowerChar(c)) == (c as int + 32) as char
  {
  }

  /** Lower-case letters and digits are kept. */
  lemma PlainCharactersKept(c: char)
    requires 'a' <= c <= 'z' || '0' <= c <= '9'
    ensures IsSafeChar(StripMark(ToLowerChar(c))) && StripMark(ToLowerChar(c)) == c
  {
  }

  /** The cut at 50 can leave a trailing dash: a 49-letter word followed by
      a space and one more letter is cut right after the dash that stands
      for the space. */
  lemma TrailingDashSurvives(word: string, last: char)
    requires |word| == 49 && forall k :: 0 <= k < |word| ==> 'a' <= word[k] <= 'z'
    requires 'a' <= last <= 'z'
    ensures var f := SafeFileName(word + " " + [last]);
            |f| == 50 && f[49] == '-' && f == word + "-"
  {
    var name := word + " " + [last];
    var expected := word + "-" + [last];
    var replaced := ReplaceUnsafe(StripMarks(ToLower(name)));
    assert replaced == expected by {
      forall k | 0 <= k < |name| ensures replaced[k] == expected[k] {
        if k < 49 {
          PlainCharactersKept(name[k]);
        } else if k == 50 {
          PlainCharactersKept(last);
        }
      }
    }
    assert NoDoubleDash(expected) by {
      forall k | 0 <= k < |expected| - 1 ensures !(expected[k] == '-' && expected[k + 1] == '-') {
        if k < 49 {
          assert expected[k] == word[k];
        } else {
          assert expected[k + 1] == last;
        }
      }
    }
    CollapseDashesSpec(expected);
    assert expected[0] == word[0];
    assert TrimDashes(expected) == expected;
    assert expected[..50] == word + "-";
  }

  /** A clinic name with accents, capitals and a space. */
  lemma ExampleFileName()
    ensures SafeFileName("São José") == "sao-jose"
  {
    ExampleStages();
    CollapseDashesSpec("sao-jose");
    assert NoDoubleDash("sao-jose") by {
      forall k | 0 <= k < 7 ensures !("sao-jose"[k] == '-' && "sao-jose"[k + 1] == '-') {
        assert k == 3 ==> "sao-jose"[k + 1] == 'j';
      }
    }
    assert TrimDashes("sao-jose") == "sao-jose";
  }

  lemma ExampleStages()
    ensures ReplaceUnsafe(StripMarks(ToLower("São José"))) == "sao-jose"
  {
    var name := "São José";
    var expected := "sao-jose";
    PerCharacterStages(name);
    var replaced := ReplaceUnsafe(StripMarks(ToLower(name)));
    forall k | 0 <= k < |name| ensures replaced[k] == expected[k] {
      AccentsFolded(name[k]);
    }
  }

  // ---------------------------------------------------------------------
  // The route
  // ---------------------------------------------------------------------

  type Bytes = seq<bv8>

  const FileNamePrefix := "material-apoio-"

  /** The answer: 400 for a missing or invalid name, 500 when rendering
      fails, and the attachment otherwise, with its `Content-Disposition`
      file name and its `Content-Length`. */
  datatype PdfResponse =
    | BadRequest
    | ServerError
    | Attachment(body: Bytes, fileName: string, contentLength: string)

  /** One request: the name the renderer was given, if it was called, and
      the answer. */
  datatype Download = Download(rendered: Option<string>, response: PdfResponse)

  function Status(r: PdfResponse): nat {
    match r
    case BadRequest => 400
    case ServerError => 500
    case Attachment(_, _, _) => 200
  }

  /** `GET`. `clinicName` is `searchParams.get('clinicName')` (`None` for
      null) and `render` is `personalizePDF`, `None` when it throws. */
  function Get(clinicName: Option<string>, render: string -> Option<Bytes>): Download {
    if clinicName.None? || !ClinicNameChecks(clinicName.value) then Download(None, BadRequest)
    else
      var name := clinicName.value;
      match render(name)
      case None => Download(Some(name), ServerError)
      case Some(pdf) =>
        Download(Some(name), Attachment(pdf, FileNamePrefix + SafeFileName(name) + ".pdf",
                                        ToRadixString(|pdf|, 10)))
  }

  /** The request is refused with 400 exactly when the name is missing or
      fails its checks, and then no PDF is rendered; otherwise the renderer
      gets the name as given. */
  lemma ValidationGate(clinicName: Option<string>, render: string -> Option<Bytes>)
    ensures var d := Get(clinicName, render);
            (d.response == BadRequest <==> clinicName.None? || !ClinicNameChecks(clinicName.value))
    ensures var d := Get(clinicName, render);
            d.response == BadRequest <==> d.rendered.None?
    ensures var d := Get(clinicName, render);
            d.rendered.Some? ==> d.rendered == clinicName && 2 <= |clinicName.value| <= 100
  {
    if clinicName.Some? && ClinicNameChecks(clinicName.value) {
      ClinicNameLength(clinicName.value);
    }
  }

  /** A rendering failure is answered 500; a rendered PDF is sent whole,
      under `material-apoio-` plus the sanitised name plus `.pdf`, with
      its byte count as `Content-Length`. */
  lemma DownloadResponse(name: string, render: string -> Option<Bytes>)
    requires ClinicNameChecks(name)
    ensures render(name).None? ==> Status(Get(Some(name), render).response) == 500
    ensures render(name).Some? ==>
              var r := Get(Some(name), render).response;
              && Status(r) == 200
              && r.body == render(name).value
              && r.fileName == FileNamePrefix + SafeFileName(name) + ".pdf"
              && FromRadixString(r.contentLength, 10) == Some(|r.body|)
  {
    if render(name).Some? {
      RadixStringRoundTrip(|render(name).value|, 10);
    }
  }
}
