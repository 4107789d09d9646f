/**
 * The driver-independent part of the upload layer (`BaseUpload`): the global
 * size and extension gate, the builder of the custom rule string, the
 * custom-name check, file-name generation, and the mutable settings
 * (`path`, `fileName`, `validateRule`, `fileInfo`) every driver shares.
 */
module Upload {
  import opened Common
  import opened Strings

  /** A list-valued setting: either stored as a list or as a comma-separated string. */
  datatype ListSetting = ListValue(items: seq<string>) | CsvValue(text: string)

  /** The entries of a list setting; a string is exploded on ','. */
  function Entries(c: ListSetting): seq<string>
  {
    match c
    case ListValue(items) => items
    case CsvValue(text) => Split(text, ',')
  }

  /** A comma-separated setting lists exactly the names it was written from. */
  lemma CsvEntries(names: seq<string>)
    requires |names| >= 1 && forall k :: 0 <= k < |names| ==> ',' !in names[k]
    ensures Entries(CsvValue(Join(names, ','))) == names
  {
    SplitJoin(names, ',');
  }

  /** The global upload policy: limits in KB and the allowed extension lists. */
  datatype Policy = Policy(fileSize: int, imgSize: int, fileExt: ListSetting, imgExt: ListSetting)

  /** The framework's default disk settings: its `root` and its public `url` (None when the disk has none). */
  datatype DiskConfig = DiskConfig(root: string, url: Option<string>)

  /** What the framework tells the layer about an uploaded file. */
  datatype UploadedFile = UploadedFile(originalName: string, ext: string, mime: string, content: seq<byte>)

  /** The result record every driver fills in (fields are set one by one; None = never set). */
  datatype FileInfo = FileInfo(
    realName: Option<string>, fileName: Option<string>,
    originLink: Option<string>, signLink: Option<string>)

  const EmptyFileInfo: FileInfo := FileInfo(None, None, None, None)

  /** What a driver's `sign` says about the link it returns. */
  datatype SignNote = Presigned | Unsupported(message: string)

  datatype SignResult = SignResult(url: string, key: string, result: SignNote)

  /**
   * The global gate: the extension must be allowed, then the size must not
   * exceed `fileSize` KB, then an image extension must also not exceed
   * `imgSize` KB. The first failing check decides the error.
   */
  function ValidateFileByConfig(ext: string, size: nat, policy: Policy): (r: Outcome)
    ensures r.Pass? <==>
      && ext in Entries(policy.fileExt)
      && size <= policy.fileSize * 1024
      && (ext in Entries(policy.imgExt) ==> size <= policy.imgSize * 1024)
    ensures ext !in Entries(policy.fileExt) ==> r == Fail(DisallowedType(ext))
    ensures ext in Entries(policy.fileExt) && size > policy.fileSize * 1024 ==>
      r == Fail(FileTooLarge(policy.fileSize))
    ensures r == Fail(ImageTooLarge(policy.imgSize)) <==>
      && ext in Entries(policy.fileExt)
      && size <= policy.fileSize * 1024
      && ext in Entries(policy.imgExt)
      && size > policy.imgSize * 1024
  {
    if ext !in Entries(policy.fileExt) then Fail(DisallowedType(ext))
    else if size > policy.fileSize * 1024 then Fail(FileTooLarge(policy.fileSize))
    else if ext in Entries(policy.imgExt) && size > policy.imgSize * 1024 then Fail(ImageTooLarge(policy.imgSize))
    else Pass
  }

  /** A disallowed extension is reported as such whatever the size. */
  lemma ExtensionCheckedFirst(ext: string, size1: nat, size2: nat, policy: Policy)
    requires ext !in Entries(policy.fileExt)
    ensures ValidateFileByConfig(ext, size1, policy) == ValidateFileByConfig(ext, size2, policy)
  {
  }

  /** The size limit is inclusive: exactly `fileSize` KB passes, one byte more fails. */
  lemma SizeBoundary(ext: string, policy: Policy)
    requires ext in Entries(policy.fileExt) && ext !in Entries(policy.imgExt)
    requires policy.fileSize >= 0
    ensures ValidateFileByConfig(ext, policy.fileSize * 1024, policy) == Pass
    ensures ValidateFileByConfig(ext, policy.fileSize * 1024 + 1, policy) == Fail(FileTooLarge(policy.fileSize))
  {
  }

  /** One custom rule the builder knows: the key it reads and the rule name it emits. */
  datatype RuleKey = RuleKey(input: string, name: string)

  /** The keys `extractValidate` looks for, in the order it emits them. */
  const RuleKeys: seq<RuleKey> := [
    RuleKey("fileSize", "filesize"), RuleKey("fileExt", "fileExt"),
    RuleKey("fileMime", "fileMime"), RuleKey("image", "image")]

  datatype RuleItem = RuleItem(name: string, value: string)

  /** The flag one key contributes: its rule when the key is set, nothing otherwise. */
  function Present(rule: map<string, string>, k: RuleKey): seq<RuleItem>
  {
    if k.input in rule then [RuleItem(k.name, rule[k.input])] else []
  }

  /** The rules present in `rule`, in the order of `keys`. */
  function RuleItems(rule: map<string, string>, keys: seq<RuleKey>): seq<RuleItem>
  {
    if |keys| == 0 then [] else Present(rule, keys[0]) + RuleItems(rule, keys[1..])
  }

  lemma RuleItemsUnfold(rule: map<string, string>)
    ensures RuleItems(rule, RuleKeys) ==
      Present(rule, RuleKeys[0]) + Present(rule, RuleKeys[1]) + Present(rule, RuleKeys[2]) + Present(rule, RuleKeys[3])
  {
    var ks := RuleKeys;
    assert ks[1..][1..][1..][1..] == [];
    assert RuleItems(rule, ks[1..][1..][1..]) == Present(rule, ks[3]);
    assert RuleItems(rule, ks[1..][1..]) == Present(rule, ks[2]) + Present(rule, ks[3]);
    assert RuleItems(rule, ks[1..]) == Present(rule, ks[1]) + Present(rule, ks[2]) + Present(rule, ks[3]);
  }

  /** The `name:value` flag of one rule. */
  function Flag(item: RuleItem): string
  {
    item.name + ":" + item.value
  }

  function Render(items: seq<RuleItem>): seq<string>
  {
    if |items| == 0 then [] else [Flag(items[0])] + Render(items[1..])
  }

  lemma {:induction false} RenderAppend(a: seq<RuleItem>, b: seq<RuleItem>)
    ensures Render(a + b) == Render(a) + Render(b)
  {
    if |a| == 0 {
      assert a + b == b;
    } else {
      var ab := a + b;
      assert ab[0] == a[0] && ab[1..] == a[1..] + b;
      RenderAppend(a[1..], b);
      assert Render(ab) == [Flag(a[0])] + (Render(a[1..]) + Render(b));
    }
  }

  lemma RenderPresent(rule: map<string, string>, k: RuleKey)
    ensures Render(Present(rule, k)) == if k.input in rule then [k.name + ":" + rule[k.input]] else []
  {
    if k.input in rule {
      assert Present(rule, k)[1..] == [];
    }
  }

  function RuleNames(items: seq<RuleItem>): seq<string>
  {
    if |items| == 0 then [] else [items[0].name] + RuleNames(items[1..])
  }

  function KeyNames(keys: seq<RuleKey>): seq<string>
  {
    if |keys| == 0 then [] else [keys[0].name] + KeyNames(keys[1..])
  }

  /** `a` is `b` with some elements left out, order kept. */
  predicate IsSubsequence(a: seq<string>, b: seq<string>)
  {
    if |a| == 0 then true
    else if |b| == 0 then false
    else if a[0] == b[0] then IsSubsequence(a[1..], b[1..])
    else IsSubsequence(a, b[1..])
  }

  /** The rule string `extractValidate` builds, or the error it raises. */
  function RuleText(rule: map<string, string>): Result<string>
  {
    var items := RuleItems(rule, RuleKeys);
    if |items| == 0 then Err(InvalidValidationRule) else Ok(Join(Render(items), '|'))
  }

  /**
   * `extractValidate`: appends one `name:value` flag per known key present,
   * in the fixed order, and joins them with '|'.
   */
  method ExtractValidate(rule: map<string, string>) returns (r: Result<string>)
    ensures r == RuleText(rule)
  {
    ghost var ks := RuleKeys;
    assert ks[0].name + ":" == "filesize:" && ks[1].name + ":" == "fileExt:";
    assert ks[2].name + ":" == "fileMime:" && ks[3].name + ":" == "image:";
    var flag: seq<string> := [];
    ghost var before := flag;
    if "fileSize" in rule {
      flag := flag + ["filesize:" + rule["fileSize"]];
    }
    AppendFlag([], rule, ks[0], before, flag);
    before := flag;
    if "fileExt" in rule {
      flag := flag + ["fileExt:" + rule["fileExt"]];
    }
    AppendFlag(Present(rule, ks[0]), rule, ks[1], before, flag);
    before := flag;
    if "fileMime" in rule {
      flag := flag + ["fileMime:" + rule["fileMime"]];
    }
    AppendFlag(Present(rule, ks[0]) + Present(rule, ks[1]), rule, ks[2], before, flag);
    before := flag;
    if "image" in rule {
      flag := flag + ["image:" + rule["image"]];
    }
    AppendFlag(Present(rule, ks[0]) + Present(rule, ks[1]) + Present(rule, ks[2]), rule, ks[3], before, flag);
    RuleItemsUnfold(rule);
    if |flag| == 0 {
      return Err(InvalidValidationRule);
    }
    return Ok(Join(flag, '|'));
  }

  /** One step of the builder: appending a present key's flag renders one more item. */
  lemma AppendFlag(items: seq<RuleItem>, rule: map<string, string>, k: RuleKey, before: seq<string>, after: seq<string>)
    requires before == Render(items)
    requires after == if k.input in rule then before + [k.name + ":" + rule[k.input]] else before
    ensures after == Render(items + Present(rule, k))
  {
    RenderAppend(items, Present(rule, k));
    RenderPresent(rule, k);
  }

  /** A rule map is refused exactly when it holds none of the four known keys. */
  lemma RuleTextRejectsIff(rule: map<string, string>)
    ensures RuleText(rule).Err? <==>
      "fileSize" !in rule && "fileExt" !in rule && "fileMime" !in rule && "image" !in rule
    ensures RuleText(rule).Err? ==> RuleText(rule).error == InvalidValidationRule
  {
    RuleItemsUnfold(rule);
  }

  /** Keys other than the four known ones are ignored. */
  lemma {:induction false} RuleItemsIgnoreOtherKeys(rule: map<string, string>, extra: string, v: string, keys: seq<RuleKey>)
    requires forall k :: 0 <= k < |keys| ==> keys[k].input != extra
    ensures RuleItems(rule[extra := v], keys) == RuleItems(rule, keys)
  {
    if |keys| > 0 {
      RuleItemsIgnoreOtherKeys(rule, extra, v, keys[1..]);
    }
  }

  /** A rule is emitted exactly when its key is present, with that key's value. */
  lemma {:induction false} RuleItemsMembership(rule: map<string, string>, keys: seq<RuleKey>, k: RuleKey)
    requires k in keys
    requires forall i, j :: 0 <= i < j < |keys| ==> keys[i].name != keys[j].name
    ensures (exists v :: RuleItem(k.name, v) in RuleItems(rule, keys)) <==> k.input in rule
    ensures k.input in rule ==> RuleItem(k.name, rule[k.input]) in RuleItems(rule, keys)
  {
    if keys[0] == k {
      if k.input in rule {
        assert RuleItem(k.name, rule[k.input]) in RuleItems(rule, keys);
      }
      RuleItemsNamesFrom(rule, keys[1..], k.name);
    } else {
      RuleItemsMembership(rule, keys[1..], k);
      if k.input in rule {
        assert RuleItem(k.name, rule[k.input]) in RuleItems(rule, keys[1..]);
      }
    }
  }

  /** Every emitted rule name is the name of one of the keys. */
  lemma {:induction false} RuleItemsNamesFrom(rule: map<string, string>, keys: seq<RuleKey>, name: string)
    requires forall j :: 0 <= j < |keys| ==> keys[j].name != name
    ensures forall v :: RuleItem(name, v) !in RuleItems(rule, keys)
  {
    if |keys| > 0 {
      RuleItemsNamesFrom(rule, keys[1..], name);
    }
  }

  /** The emitted rules keep the fixed key order. */
  lemma {:induction false} RuleItemsOrdered(rule: map<string, string>, keys: seq<RuleKey>)
    ensures IsSubsequence(RuleNames(RuleItems(rule, keys)), KeyNames(keys))
  {
    if |keys| > 0 {
      RuleItemsOrdered(rule, keys[1..]);
      var rest := RuleItems(rule, keys[1..]);
      var tail := RuleNames(rest);
      assert KeyNames(keys)[1..] == KeyNames(keys[1..]);
      if keys[0].input in rule {
        var items := [RuleItem(keys[0].name, rule[keys[0].input])] + rest;
        assert RuleItems(rule, keys) == items;
        assert items[1..] == rest;
        assert RuleNames(items) == [keys[0].name] + tail;
        assert ([keys[0].name] + tail)[1..] == tail;
      } else {
        assert RuleItems(rule, keys) == [] + rest == rest;
        SkipHead(tail, KeyNames(keys));
      }
    }
  }

  lemma {:induction false} SkipHead(a: seq<string>, b: seq<string>)
    requires |b| >= 1 && IsSubsequence(a, b[1..])
    ensures IsSubsequence(a, b)
    decreases |a| + |b|
  {
    if |a| > 0 && a[0] == b[0] {
      SubsequenceTail(a, b[1..]);
      SkipHead(a[1..], b[1..]);
    }
  }

  lemma {:induction false} SubsequenceTail(a: seq<string>, b: seq<string>)
    requires |a| >= 1 && IsSubsequence(a, b)
    ensures |b| >= 1 && IsSubsequence(a[1..], b[1..])
    decreases |a| + |b|
  {
    if a[0] != b[0] && |b| >= 2 {
      SubsequenceTail(a, b[1..]);
      SkipHead(a[1..], b[1..]);
    }
  }

  lemma {:induction false} RuleItemsFree(rule: map<string, string>, keys: seq<RuleKey>)
    requires forall j :: 0 <= j < |keys| && keys[j].input in rule ==> '|' !in rule[keys[j].input]
    requires forall j :: 0 <= j < |keys| ==> '|' !in keys[j].name
    ensures forall i :: 0 <= i < |RuleItems(rule, keys)| ==>
      '|' !in RuleItems(rule, keys)[i].name && '|' !in RuleItems(rule, keys)[i].value
  {
    if |keys| > 0 {
      RuleItemsFree(rule, keys[1..]);
    }
  }

  lemma {:induction false} RenderFree(items: seq<RuleItem>)
    requires forall i :: 0 <= i < |items| ==> '|' !in items[i].name && '|' !in items[i].value
    ensures |Render(items)| == |items|
    ensures forall i :: 0 <= i < |items| ==> Render(items)[i] == items[i].name + ":" + items[i].value
    ensures forall i :: 0 <= i < |items| ==> '|' !in Render(items)[i]
  {
    if |items| > 0 {
      RenderFree(items[1..]);
    }
  }

  /**
   * When none of the four known values holds '|', splitting the rule string on
   * '|' gives the flags back; the values of other keys are never read.
   */
  lemma RuleTextSplits(rule: map<string, string>)
    requires forall k :: k in ["fileSize", "fileExt", "fileMime", "image"] && k in rule ==> '|' !in rule[k]
    requires RuleText(rule).Ok?
    ensures Split(RuleText(rule).value, '|') == Render(RuleItems(rule, RuleKeys))
  {
    var items := RuleItems(rule, RuleKeys);
    assert forall j :: 0 <= j < |RuleKeys| ==> RuleKeys[j].input in ["fileSize", "fileExt", "fileMime", "image"];
    RuleItemsFree(rule, RuleKeys);
    RenderFree(items);
    SplitJoin(Render(items), '|');
  }

  /** The rule string when all four keys are present. */
  lemma RuleTextAllKeys(size: string, ext: string, mime: string, image: string)
    ensures RuleText(map["fileSize" := size, "fileExt" := ext, "fileMime" := mime, "image" := image])
      == Ok(Join(["filesize:" + size, "fileExt:" + ext, "fileMime:" + mime, "image:" + image], '|'))
  {
    var rule := map["fileSize" := size, "fileExt" := ext, "fileMime" := mime, "image" := image];
    var ks := RuleKeys;
    RuleItemsUnfold(rule);
    RenderPresent(rule, ks[0]);
    RenderPresent(rule, ks[1]);
    RenderPresent(rule, ks[2]);
    RenderPresent(rule, ks[3]);
    var p0, p1, p2, p3 := Present(rule, ks[0]), Present(rule, ks[1]), Present(rule, ks[2]), Present(rule, ks[3]);
    RenderAppend(p0, p1);
    RenderAppend(p0 + p1, p2);
    RenderAppend(p0 + p1 + p2, p3);
    assert ks[0].name + ":" == "filesize:" && ks[1].name + ":" == "fileExt:";
    assert ks[2].name + ":" == "fileMime:" && ks[3].name + ":" == "image:";
    var f0, f1, f2, f3 := "filesize:" + size, "fileExt:" + ext, "fileMime:" + mime, "image:" + image;
    var flags := [f0, f1, f2, f3];
    assert Render(RuleItems(rule, RuleKeys)) == flags;
  }

  /** The key is read as `fileSize`: a map keyed `filesize` (lower case) holds no known rule. */
  lemma LowerCaseSizeKeyRefused(v: string)
    ensures RuleText(map["filesize" := v]) == Err(InvalidValidationRule)
  {
    RuleItemsUnfold(map["filesize" := v]);
  }

  /** The `image` value is prefixed with `image:` again, so a value written as a full rule doubles it. */
  lemma ImageRuleDoublesPrefix(spec: string)
    ensures RuleText(map["image" := "image:" + spec]) == Ok("image:image:" + spec)
  {
    var rule := map["image" := "image:" + spec];
    var item := RuleItem("image", "image:" + spec);
    RuleItemsUnfold(rule);
    assert Present(rule, RuleKeys[3]) == [item];
    assert RuleItems(rule, RuleKeys) == [item];
    assert [item][1..] == [];
    assert Render([item]) == [Flag(item)];
    assert Flag(item) == "image:image:" + spec;
  }

  /**
   * Admission of an uploaded file: the global gate, then, when a custom rule map
   * is set, its rule string, which the framework validator (`accepts`) must pass.
   */
  function Admission(ext: string, size: nat, policy: Policy, rule: map<string, string>, accepts: string -> bool): (r: Outcome)
    ensures r.Pass? <==>
      (ValidateFileByConfig(ext, size, policy).Pass? &&
       (|rule| == 0 || (RuleText(rule).Ok? && accepts(RuleText(rule).value))))
    ensures ValidateFileByConfig(ext, size, policy).Pass? && |rule| > 0 && RuleText(rule).Err? ==>
      r == Fail(InvalidValidationRule)
    ensures |rule| == 0 ==> r == ValidateFileByConfig(ext, size, policy)
    ensures r.Pass? && |rule| > 0 ==> RuleText(rule).Ok? && accepts(RuleText(rule).value)
    ensures r.Fail? && r.error.RuleRejected? ==> RuleText(rule) == Ok(r.error.rule) && !accepts(r.error.rule)
  {
    var gate := ValidateFileByConfig(ext, size, policy);
    if gate.Fail? then gate
    else if |rule| == 0 then Pass
    else match RuleText(rule)
      case Err(e) => Fail(e)
      case Ok(text) => if accepts(text) then Pass else Fail(RuleRejected(text))
  }

  /** A custom rule never bypasses the global gate: admission implies the gate passed. */
  lemma AdmissionKeepsGlobalGate(ext: string, size: nat, policy: Policy, rule: map<string, string>, accepts: string -> bool)
    ensures Admission(ext, size, policy, rule, accepts).Pass? ==> ValidateFileByConfig(ext, size, policy).Pass?
    ensures ValidateFileByConfig(ext, size, policy).Fail? ==>
      Admission(ext, size, policy, rule, accepts) == ValidateFileByConfig(ext, size, policy)
  {
  }

  /** `date("YmdHis")`: fourteen decimal digits. */
  predicate IsTimestamp(stamp: string)
  {
    |stamp| == 14 && AllDigits(stamp)
  }

  /** `rand(10000, 99999)`. */
  predicate IsRandomSuffix(n: int)
  {
    10000 <= n <= 99999
  }

  /**
   * `generateFileName`: the custom name when it is truthy, otherwise
   * `<stamp>_<random>.<ext>`.
   */
  function GenerateFileName(custom: string, ext: string, stamp: string, random: nat): string
  {
    if Truthy(custom) then custom else stamp + "_" + NatToString(random) + "." + ext
  }

  /** The generated name: 14 timestamp digits, '_', the 5 random digits, '.', the extension. */
  lemma GeneratedNameShape(custom: string, ext: string, stamp: string, random: nat)
    requires IsTimestamp(stamp) && IsRandomSuffix(random)
    ensures Truthy(custom) ==> GenerateFileName(custom, ext, stamp, random) == custom
    ensures !Truthy(custom) ==>
      var r := GenerateFileName(custom, ext, stamp, random);
      && |r| == 21 + |ext|
      && r[..14] == stamp && r[14] == '_'
      && AllDigits(r[15..20]) && DigitsValue(r[15..20]) == random
      && r[20] == '.' && r[21..] == ext
  {
    if !Truthy(custom) {
      assert Pow10(4) == 10000 && Pow10(5) == 100000;
      NatToStringLength(random, 4);
      DigitsRoundTrip(random);
      var r := GenerateFileName(custom, ext, stamp, random);
      assert r[15..20] == NatToString(random);
    }
  }

  /** A generated name carries the file's extension, as `pathinfo` reads it back. */
  lemma GeneratedNameExtension(custom: string, ext: string, stamp: string, random: nat)
    requires IsTimestamp(stamp) && IsRandomSuffix(random)
    requires !Truthy(custom) && '/' !in ext && '.' !in ext
    ensures Extension(GenerateFileName(custom, ext, stamp, random)) == ext
  {
    var stem := stamp + "_" + NatToString(random);
    assert forall i :: 0 <= i < |stem| ==> stem[i] == '_' || IsDigit(stem[i]);
    assert '/' !in stem;
    ExtensionOf(stem, ext);
  }

  /** The custom-name check of `name()`: the name's extension must be allowed. */
  predicate NameAllowed(fileName: string, policy: Policy)
  {
    Extension(fileName) in Entries(policy.fileExt)
  }

  /** The mutable state a driver inherits from `BaseUpload`. */
  class BaseUpload {
    const config: map<string, string>
    var fileInfo: FileInfo
    var validateRule: map<string, string>
    var path: string
    var fileName: string

    constructor(config: map<string, string>)
      ensures this.config == config
      ensures fileInfo == EmptyFileInfo && validateRule == map[]
      ensures path == "files" && fileName == ""
    {
      this.config := config;
      fileInfo := EmptyFileInfo;
      validateRule := map[];
      path := "files";
      fileName := "";
    }

    /** `to()`: sets the destination path. */
    method To(path: string)
      modifies this`path
      ensures this.path == path
    {
      this.path := path;
    }

    /** `name()`: stores a custom file name only when its extension is allowed. */
    method Name(fileName: string, policy: Policy) returns (r: Outcome)
      modifies this`fileName
      ensures r.Pass? <==> NameAllowed(fileName, policy)
      ensures r.Fail? ==> r.error == DisallowedType(Extension(fileName))
      ensures this.fileName == if r.Pass? then fileName else old(this.fileName)
    {
      var ext := Extension(fileName);
      if ext !in Entries(policy.fileExt) {
        return Fail(DisallowedType(ext));
      }
      this.fileName := fileName;
      return Pass;
    }

    /** `validate()`: replaces the custom rule map only with a non-empty one. */
    method Validate(validateRule: map<string, string>)
      modifies this`validateRule
      ensures this.validateRule == if |validateRule| == 0 then old(this.validateRule) else validateRule
    {
      if |validateRule| != 0 {
        this.validateRule := validateRule;
      }
    }
  }
}
