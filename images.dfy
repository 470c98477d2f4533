/** The image-field substitution of `Document.uploadImages` (src/document.js):
    the base64 payloads of `imagens` (an array) or `imagem` (a single value)
    are uploaded to the bucket and replaced by `{bucket, key}` references.
    The upload itself is foreign; the model records the upload requests. */
module Images {
  import opened Strings
  import opened JsValues

  /** The `params` of one `s3.upload`: bucket, key, the base64 text that is
      decoded into the body (decoding is not modelled) and the content type. */
  datatype Upload = Upload(bucket: string, key: string, payload: string, contentType: string)

  const ContentType := "image/jpeg"
  const DataUriHead := "data:image/"
  const Base64Marker := ";base64,"

  /** A character matched by `\w`. */
  predicate IsWordChar(c: char)
  {
    'a' <= c <= 'z' || 'A' <= c <= 'Z' || '0' <= c <= '9' || c == '_'
  }

  /** A string matched by `\w+`. */
  predicate IsWord(w: string)
  {
    |w| > 0 && forall i :: 0 <= i < |w| ==> IsWordChar(w[i])
  }

  /** `data:image/<w>;base64,<payload>`. */
  function DataUri(w: string, payload: string): string
  {
    DataUriHead + w + Base64Marker + payload
  }

  /** The length of the run of word characters starting at `i`. */
  function WordRun(s: string, i: nat): (n: nat)
    requires i <= |s|
    ensures i + n <= |s|
    decreases |s| - i
  {
    if i < |s| && IsWordChar(s[i]) then 1 + WordRun(s, i + 1) else 0
  }

  /** `s.replace(/^data:image\/\w+;base64,/, "")`. Since `;` is not a word
      character, `\w+` can only match the whole run of word characters. */
  function StripDataUri(s: string): string
  {
    var h := |DataUriHead|;
    if h <= |s| && s[..h] == DataUriHead then
      var n := WordRun(s, h);
      var rest := s[h + n..];
      if n > 0 && |Base64Marker| <= |rest| && rest[..|Base64Marker|] == Base64Marker
      then rest[|Base64Marker|..]
      else s
    else s
  }

  lemma {:induction false} WordRunOfWord(s: string, i: nat, w: string)
    requires i + |w| <= |s| && s[i..i + |w|] == w
    requires forall k :: 0 <= k < |w| ==> IsWordChar(w[k])
    requires i + |w| < |s| ==> !IsWordChar(s[i + |w|])
    ensures WordRun(s, i) == |w|
    decreases |w|
  {
    if w != [] {
      assert s[i] == w[0];
      assert s[i + 1..i + 1 + |w[1..]|] == w[1..];
      WordRunOfWord(s, i + 1, w[1..]);
    }
  }

  /** The prefix is removed exactly when the string starts with one: the
      result is either the string itself, or what follows such a prefix; and
      a string of the form `data:image/<w>;base64,<t>` gives `t`. */
  lemma StripDataUriSpec(s: string)
    ensures StripDataUri(s) == s || exists w :: IsWord(w) && s == DataUri(w, StripDataUri(s))
    ensures forall w, t :: IsWord(w) && s == DataUri(w, t) ==> StripDataUri(s) == t
  {
    var h := |DataUriHead|;
    if h <= |s| && s[..h] == DataUriHead {
      var n := WordRun(s, h);
      WordRunIsWord(s, h);
      var rest := s[h + n..];
      if n > 0 && |Base64Marker| <= |rest| && rest[..|Base64Marker|] == Base64Marker {
        var w := s[h..h + n];
        assert IsWord(w);
        assert s == DataUri(w, rest[|Base64Marker|..]);
      }
    }
    forall w, t | IsWord(w) && s == DataUri(w, t)
      ensures StripDataUri(s) == t
    {
      assert s[..h] == DataUriHead;
      assert s[h..h + |w|] == w;
      assert s[h + |w|] == ';';
      WordRunOfWord(s, h, w);
      assert s[h + |w|..] == Base64Marker + t;
    }
  }

  lemma {:induction false} WordRunIsWord(s: string, i: nat)
    requires i <= |s|
    ensures forall k :: i <= k < i + WordRun(s, i) ==> IsWordChar(s[k])
    decreases |s| - i
  {
    if i < |s| && IsWordChar(s[i]) {
      WordRunIsWord(s, i + 1);
    }
  }

  /** `imagens/${requestBody.id}-${timestamp}.jpeg`. */
  function ImageKey(id: JsValue, timestamp: string): string
  {
    "imagens/" + Display(id) + "-" + timestamp + ".jpeg"
  }

  /** `{bucket, key}`. */
  function Reference(bucket: string, key: string): JsValue
  {
    Obj([("bucket", Str(bucket)), ("key", Str(key))])
  }

  /** The files to upload: the `imagens` array when it is a truthy array,
      otherwise `[imagem]` when `imagem` is truthy, otherwise none. */
  function ImageFiles(requestBody: Record): seq<JsValue>
  {
    var imagens := Get(requestBody, "imagens");
    var imagem := Get(requestBody, "imagem");
    if Truthy(imagens) && imagens.Arr? then imagens.items
    else if Truthy(imagem) then [imagem]
    else []
  }

  /** How many files are processed: `.replace` throws on the first file that
      is not a string, which ends the mapping. */
  function LeadingStrings(files: seq<JsValue>): (n: nat)
    ensures n <= |files|
    ensures forall k :: 0 <= k < n ==> files[k].Str?
    ensures n < |files| ==> !files[n].Str?
  {
    if files == [] || !files[0].Str? then 0 else 1 + LeadingStrings(files[1..])
  }

  /** What one call of `uploadImages` does: the upload requests issued (the
      `i`-th key stamped with `now(i)`), whether it threw, and the body
      afterwards. */
  datatype Substitution = Substitution(fields: Record, uploads: seq<Upload>, threw: bool)

  function UploadOf(bucket: string, id: JsValue, now: nat -> string, i: nat, file: string): Upload
  {
    Upload(bucket, ImageKey(id, now(i)), StripDataUri(file), ContentType)
  }

  /** The uploads issued for the leading string files, the `i`-th stamped with `now(i)`. */
  function ImageUploads(requestBody: Record, bucket: string, now: nat -> string): seq<Upload>
  {
    var files := ImageFiles(requestBody);
    var n := LeadingStrings(files);
    seq(n, i requires 0 <= i < n => UploadOf(bucket, Get(requestBody, "id"), now, i, files[i].s))
  }

  /** The `{bucket, key}` references pushed to `uploaded`, one per upload. */
  function References(bucket: string, uploads: seq<Upload>): seq<JsValue>
  {
    seq(|uploads|, i requires 0 <= i < |uploads| => Reference(bucket, uploads[i].key))
  }

  function SubstituteImages(requestBody: Record, bucket: string, now: nat -> string): Substitution
  {
    var files := ImageFiles(requestBody);
    var n := LeadingStrings(files);
    var uploads := ImageUploads(requestBody, bucket, now);
    var uploaded := References(bucket, uploads);
    if n < |files| then Substitution(requestBody, uploads, true)
    else if n > 0 && Truthy(Get(requestBody, "imagens")) then
      Substitution(Set(requestBody, "imagens", Arr(uploaded)), uploads, false)
    else if n > 0 && Truthy(Get(requestBody, "imagem")) then
      Substitution(Set(requestBody, "imagem", uploaded[0]), uploads, false)
    else Substitution(requestBody, uploads, false)
  }

  /** An array of n string payloads in `imagens` becomes n references, in the
      same order, the i-th under key `imagens/{id}-{now(i)}.jpeg`; each payload
      is uploaded with its data-URI prefix stripped; `imagem` is untouched and
      no property is added or moved. */
  lemma ImagensReplaced(requestBody: Record, bucket: string, now: nat -> string, items: seq<JsValue>)
    requires Get(requestBody, "imagens") == Arr(items) && |items| > 0
    requires forall k :: 0 <= k < |items| ==> items[k].Str?
    ensures var r := SubstituteImages(requestBody, bucket, now);
            var id := Get(requestBody, "id");
            var refs := Get(r.fields, "imagens");
      && !r.threw
      && |r.uploads| == |items|
      && refs.Arr? && |refs.items| == |items|
      && (forall i :: 0 <= i < |items| ==>
            r.uploads[i] == Upload(bucket, ImageKey(id, now(i)), StripDataUri(items[i].s), ContentType)
            && refs.items[i] == Reference(bucket, ImageKey(id, now(i))))
      && Get(r.fields, "imagem") == Get(requestBody, "imagem")
      && Keys(r.fields) == Keys(requestBody)
  {
    ImagensSubstitution(requestBody, bucket, now, items);
    var uploads := ImageUploads(requestBody, bucket, now);
    var refs := References(bucket, uploads);
    OtherImageField(requestBody, Arr(refs));
    KeyIsPresent(requestBody, "imagens");
    forall i | 0 <= i < |items|
      ensures refs[i] == Reference(bucket, uploads[i].key)
    {
    }
  }

  /** The shape of the substitution on an array of strings: every file is
      uploaded and the array is replaced by the references. */
  lemma ImagensSubstitution(requestBody: Record, bucket: string, now: nat -> string, items: seq<JsValue>)
    requires Get(requestBody, "imagens") == Arr(items) && |items| > 0
    requires forall k :: 0 <= k < |items| ==> items[k].Str?
    ensures var uploads := ImageUploads(requestBody, bucket, now);
      && |uploads| == |items|
      && (forall i :: 0 <= i < |items| ==>
            uploads[i] == UploadOf(bucket, Get(requestBody, "id"), now, i, items[i].s))
      && SubstituteImages(requestBody, bucket, now)
         == Substitution(Set(requestBody, "imagens", Arr(References(bucket, uploads))), uploads, false)
  {
    var files := ImageFiles(requestBody);
    assert files == items;
    assert LeadingStrings(files) == |files|;
  }

  /** Writing one image field leaves the other as it was. */
  lemma OtherImageField(r: Record, v: JsValue)
    ensures Get(Set(r, "imagens", v), "imagem") == Get(r, "imagem")
    ensures Get(Set(r, "imagem", v), "imagens") == Get(r, "imagens")
  {
    assert |"imagem"| != |"imagens"|;
  }

  /** A property whose value is not `undefined` is one of the keys. */
  lemma {:induction false} KeyIsPresent(r: Record, k: string)
    ensures Get(r, k) != Undefined ==> k in Keys(r)
  {
    if r != [] && r[0].0 != k {
      KeyIsPresent(r[1..], k);
    }
  }

  /** Only `imagem`, holding one string: it becomes a single reference. */
  lemma ImagemReplaced(requestBody: Record, bucket: string, now: nat -> string, payload: string)
    requires !Truthy(Get(requestBody, "imagens"))
    requires Get(requestBody, "imagem") == Str(payload) && payload != ""
    ensures var r := SubstituteImages(requestBody, bucket, now);
            var key := ImageKey(Get(requestBody, "id"), now(0));
      && r.uploads == [Upload(bucket, key, StripDataUri(payload), ContentType)]
      && r.fields == Set(requestBody, "imagem", Reference(bucket, key))
  {
    assert ImageFiles(requestBody) == [Str(payload)];
  }

  /** Neither image field set: the body is unchanged and nothing is uploaded. */
  lemma NoImageFields(requestBody: Record, bucket: string, now: nat -> string)
    requires !Truthy(Get(requestBody, "imagens")) && !Truthy(Get(requestBody, "imagem"))
    ensures SubstituteImages(requestBody, bucket, now) == Substitution(requestBody, [], false)
  {
  }

  /** Quirk: `imagens` truthy but not an array, `imagem` a string: the one
      reference is written to `imagens`, as a one-element array, and `imagem`
      keeps its raw value. */
  lemma NonArrayImagensQuirk(requestBody: Record, bucket: string, now: nat -> string, payload: string)
    requires Truthy(Get(requestBody, "imagens")) && !Get(requestBody, "imagens").Arr?
    requires Get(requestBody, "imagem") == Str(payload) && payload != ""
    ensures var r := SubstituteImages(requestBody, bucket, now);
      && |r.uploads| == 1
      && Get(r.fields, "imagens") == Arr([Reference(bucket, ImageKey(Get(requestBody, "id"), now(0)))])
      && Get(r.fields, "imagem") == Str(payload)
  {
    var files := ImageFiles(requestBody);
    assert files == [Str(payload)];
    assert LeadingStrings(files) == 1;
    var uploads := ImageUploads(requestBody, bucket, now);
    var refs := References(bucket, uploads);
    assert refs == [Reference(bucket, ImageKey(Get(requestBody, "id"), now(0)))];
    assert SubstituteImages(requestBody, bucket, now) == Substitution(Set(requestBody, "imagens", Arr(refs)), uploads, false);
    OtherImageField(requestBody, Arr(refs));
  }

  /** Quirk: an empty `imagens` array suppresses any `imagem` upload. */
  lemma EmptyImagensQuirk(requestBody: Record, bucket: string, now: nat -> string)
    requires Get(requestBody, "imagens") == Arr([])
    ensures SubstituteImages(requestBody, bucket, now) == Substitution(requestBody, [], false)
  {
  }

  /** A file that is not a string makes `.replace` throw: the body is left as
      it was, and only the files before it were uploaded. */
  lemma NonStringFileAborts(requestBody: Record, bucket: string, now: nat -> string)
    requires exists k :: 0 <= k < |ImageFiles(requestBody)| && !ImageFiles(requestBody)[k].Str?
    ensures var r := SubstituteImages(requestBody, bucket, now);
      r.threw && r.fields == requestBody && |r.uploads| < |ImageFiles(requestBody)|
  {
  }
}
