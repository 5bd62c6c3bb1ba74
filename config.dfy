/** The configuration object `CONFIG` and the helpers of `ConfigUtils`:
    the input checks for food names, tag names and image files, and the
    nested-path `get`/`set` over the configuration tree. */
module Config {
  import opened Js

  // Limits of CONFIG.VALIDATION and CONFIG.IMAGES.
  const FoodNameMaxLength: nat := 100
  const TagNameMaxLength: nat := 50
  const MaxTagsPerFood: nat := 10
  const MaxImageFileSize: nat := 5 * 1024 * 1024
  const SupportedFormats: seq<string> := ["jpg", "jpeg", "png", "gif", "webp"]

  // Messages of CONFIG.MESSAGES.ERRORS, and the one `validateImage` spells out.
  const FoodNameRequired := "Please enter food name"
  const TagNameRequired := "Please enter tag name"
  const FoodNameTooLong := "Food name is too long (max 100 characters)"
  const TagNameTooLong := "Tag name is too long (max 50 characters)"
  const InvalidImageFormat := "Unsupported image format. Please use JPG, PNG, GIF, or WebP"
  const ImageTooLarge := "Image file is too large (max 5MB)"
  const MaxTagsPerFoodMessage := "Maximum 10 tags per food item"
  const NoFileProvided := "No file provided"

  /** `{ valid: true }` or `{ valid: false, error }` */
  datatype Check = Pass | Fail(error: string)

  /** The rule `validateFoodName` and `validateTagName` share: a missing,
      empty or all-whitespace name is required; otherwise the untrimmed
      length must not exceed the limit. */
  function CheckName(name: Option<string>, maxLength: nat, required: string, tooLong: string): (r: Check)
    ensures r.Pass? <==> name.Some? && !AllWhitespace(name.value) && |name.value| <= maxLength
    ensures r.Fail? && (name.None? || AllWhitespace(name.value)) ==> r.error == required
    ensures r.Fail? && name.Some? && !AllWhitespace(name.value) ==> r.error == tooLong && |name.value| > maxLength
  {
    if name.None? || name.value == "" then Fail(required)
    else
      TrimEmptyIff(name.value);
      if |Trim(name.value)| == 0 then Fail(required)
      else if |name.value| > maxLength then Fail(tooLong)
      else Pass
  }

  /** `ConfigUtils.validateFoodName` */
  function ValidateFoodName(name: Option<string>): (r: Check)
    ensures r.Pass? <==> name.Some? && !AllWhitespace(name.value) && |name.value| <= FoodNameMaxLength
    ensures r.Fail? && (name.None? || AllWhitespace(name.value)) ==> r.error == FoodNameRequired
    ensures r.Fail? && name.Some? && !AllWhitespace(name.value) ==> r.error == FoodNameTooLong
  {
    CheckName(name, FoodNameMaxLength, FoodNameRequired, FoodNameTooLong)
  }

  /** `ConfigUtils.validateTagName` */
  function ValidateTagName(name: Option<string>): (r: Check)
    ensures r.Pass? <==> name.Some? && !AllWhitespace(name.value) && |name.value| <= TagNameMaxLength
    ensures r.Fail? && (name.None? || AllWhitespace(name.value)) ==> r.error == TagNameRequired
    ensures r.Fail? && name.Some? && !AllWhitespace(name.value) ==> r.error == TagNameTooLong
  {
    CheckName(name, TagNameMaxLength, TagNameRequired, TagNameTooLong)
  }

  /** The emptiness rule wins over the length rule: a blank name of any
      length is reported as missing, never as too long. */
  lemma {:induction false} BlankNameIsRequiredAtAnyLength(n: nat)
    ensures |Spaces(n)| == n
    ensures ValidateFoodName(Some(Spaces(n))) == Fail(FoodNameRequired)
    ensures ValidateTagName(Some(Spaces(n))) == Fail(TagNameRequired)
  {
    SpacesAreWhitespace(n);
  }

  function Spaces(n: nat): (s: string)
    ensures |s| == n
  {
    if n == 0 then "" else Spaces(n - 1) + " "
  }

  lemma {:induction false} SpacesAreWhitespace(n: nat)
    ensures AllWhitespace(Spaces(n))
  {
    if n > 0 {
      SpacesAreWhitespace(n - 1);
    }
  }

  /** An image file as the browser describes it: its name and its size in bytes. */
  datatype ImageFile = ImageFile(name: string, size: nat)

  /** `file.name.split('.').pop().toLowerCase()` */
  function Extension(fileName: string): string
  {
    ToLower(LastPiece(fileName, '.'))
  }

  /** `ConfigUtils.validateImage`: the file must be present, its extension
      one of the supported formats, and its size at most 5 MiB, checked in
      that order. */
  function ValidateImage(file: Option<ImageFile>): (r: Check)
    ensures r.Pass? <==> file.Some? && Extension(file.value.name) in SupportedFormats && file.value.size <= MaxImageFileSize
    ensures file.None? ==> r == Fail(NoFileProvided)
    ensures file.Some? && Extension(file.value.name) !in SupportedFormats ==> r == Fail(InvalidImageFormat)
    ensures r.Fail? && file.Some? && Extension(file.value.name) in SupportedFormats ==> r == Fail(ImageTooLarge)
  {
    if file.None? then Fail(NoFileProvided)
    else if Extension(file.value.name) !in SupportedFormats then Fail(InvalidImageFormat)
    else if file.value.size > MaxImageFileSize then Fail(ImageTooLarge)
    else Pass
  }

  /** What decides an image is the text after its last dot, whatever comes
      before it and in whatever letter case: `stem.ext` is accepted exactly
      when `ext` lower-cased is a supported format and the size fits. */
  lemma ImageVerdictByExtension(stem: string, ext: string, size: nat)
    requires '.' !in ext
    ensures ValidateImage(Some(ImageFile(stem + "." + ext, size))).Pass?
        <==> ToLower(ext) in SupportedFormats && size <= MaxImageFileSize
    ensures ToLower(ext) !in SupportedFormats ==>
        ValidateImage(Some(ImageFile(stem + "." + ext, size))) == Fail(InvalidImageFormat)
  {
    assert stem + "." + ext == stem + ['.'] + ext;
    SplitAfterSeparator(stem, '.', ext);
  }

  /** A name without any dot is its own extension, so a file called just
      `png` passes the format check. */
  lemma DotlessNameIsItsOwnExtension(name: string, size: nat)
    requires '.' !in name
    ensures ValidateImage(Some(ImageFile(name, size))).Pass?
        <==> ToLower(name) in SupportedFormats && size <= MaxImageFileSize
  {
    SplitWithoutSeparator(name, '.');
  }

  // ---------------------------------------------------------------------
  // The configuration tree

  /** `ConfigUtils.get` on a tree: walk the keys; as soon as the current
      value is not an object or lacks the key, the answer is the default. */
  function Lookup(v: JsValue, keys: seq<string>, default: JsValue): JsValue
  {
    if keys == [] then v
    else if IsObject(v) && HasKey(v, keys[0]) then Lookup(v.fields[keys[0]], keys[1..], default)
    else default
  }

  /** `ConfigUtils.set` on a tree: missing intermediate keys get a fresh empty
      object and the last key is assigned. Using `in` on a primitive, or
      assigning a property of one, throws a TypeError (config.js is a
      strict-mode module). */
  function Assign(v: JsValue, keys: seq<string>, value: JsValue): (r: Completion<JsValue>)
    requires |keys| >= 1
    ensures r.Normal? ==> r.value.Obj?
    ensures r.Normal? <==> v.Obj? && (|keys| == 1 || keys[0] !in v.fields || Assign(v.fields[keys[0]], keys[1..], value).Normal?)
    decreases keys
  {
    if !v.Obj? then ThrowsTypeError
    else if |keys| == 1 then Normal(Obj(v.fields[keys[0] := value]))
    else
      var child := if keys[0] in v.fields then v.fields[keys[0]] else Obj(map[]);
      match Assign(child, keys[1..], value)
      case Normal(c) => Normal(Obj(v.fields[keys[0] := c]))
      case ThrowsTypeError => ThrowsTypeError
  }

  /** After a successful `set`, a `get` of the same path returns the value
      that was set. */
  lemma {:induction false} LookupAfterAssign(v: JsValue, keys: seq<string>, value: JsValue, default: JsValue)
    requires |keys| >= 1 && Assign(v, keys, value).Normal?
    ensures Lookup(Assign(v, keys, value).value, keys, default) == value
    decreases keys
  {
    if |keys| > 1 {
      var child := if keys[0] in v.fields then v.fields[keys[0]] else Obj(map[]);
      LookupAfterAssign(child, keys[1..], value, default);
    }
  }

  /** Two paths diverge when they differ at some position both have. */
  ghost predicate Diverge(p: seq<string>, q: seq<string>)
  {
    exists i :: 0 <= i < |p| && i < |q| && p[i] != q[i]
  }

  /** A `set` leaves every path that diverges from its own path reading as
      before, including paths through the intermediate objects it created. */
  lemma {:induction false} AssignKeepsDivergentPaths(v: JsValue, keys: seq<string>, value: JsValue, q: seq<string>, default: JsValue)
    requires |keys| >= 1 && Assign(v, keys, value).Normal?
    requires Diverge(keys, q)
    ensures Lookup(Assign(v, keys, value).value, q, default) == Lookup(v, q, default)
    decreases keys
  {
    var w := Assign(v, keys, value).value;
    if keys[0] != q[0] {
      assert q[0] in w.fields <==> q[0] in v.fields;
      assert q[0] in v.fields ==> w.fields[q[0]] == v.fields[q[0]];
    } else {
      var i :| 0 <= i < |keys| && i < |q| && keys[i] != q[i];
      assert i >= 1 && |keys| > 1;
      assert keys[1..][i - 1] != q[1..][i - 1];
      var child := if keys[0] in v.fields then v.fields[keys[0]] else Obj(map[]);
      AssignKeepsDivergentPaths(child, keys[1..], value, q[1..], default);
      assert w.fields[q[0]] == Assign(child, keys[1..], value).value;
      if keys[0] !in v.fields {
        assert Lookup(child, q[1..], default) == default;
      }
    }
  }

  /** The VALIDATION, IMAGES, DEFAULTS, FEATURES and ENV sections of CONFIG
      (the UI, FILES, STORAGE, SHORTCUTS, DEBUG, APP and MESSAGES sections
      are not part of this model, nor is IMAGES.QUALITY, which is not an
      integer). `hasRequire` is `typeof require !==
      'undefined'` where the script is loaded, which ENV.IS_ELECTRON records. */
  function InitialConfig(hasRequire: bool): (v: JsValue)
    ensures v.Obj?
  {
    Obj(map[
      "VALIDATION" := Obj(map[
        "FOOD_NAME" := Obj(map["MIN_LENGTH" := Num(1), "MAX_LENGTH" := Num(FoodNameMaxLength), "REQUIRED" := Bool(true)]),
        "TAG_NAME" := Obj(map["MIN_LENGTH" := Num(1), "MAX_LENGTH" := Num(TagNameMaxLength), "REQUIRED" := Bool(true)]),
        "MAX_TAGS_PER_FOOD" := Num(MaxTagsPerFood),
        "MAX_TOTAL_TAGS" := Num(100),
        "MAX_TOTAL_FOODS" := Num(1000)]),
      "IMAGES" := Obj(map[
        "SUPPORTED_FORMATS" := Arr([Str("jpg"), Str("jpeg"), Str("png"), Str("gif"), Str("webp")]),
        "MAX_FILE_SIZE" := Num(MaxImageFileSize),
        "THUMBNAIL_SIZE" := Obj(map["width" := Num(100), "height" := Num(100)])]),
      "DEFAULTS" := Obj(map[
        "EMPTY_DATA" := Obj(map["foods" := Arr([]), "tags" := Arr([])]),
        "NEW_FOOD" := Obj(map[
          "id" := Null, "name" := Str(""), "imageUrl" := Str(""), "selected" := Bool(false), "tags" := Arr([])]),
        "NEW_TAG" := Obj(map["id" := Null, "name" := Str("")])]),
      "FEATURES" := Obj(map[
        "ANIMATIONS_ENABLED" := Bool(true),
        "BACKUP_ENABLED" := Bool(true),
        "IMAGE_COMPRESSION" := Bool(true),
        "KEYBOARD_SHORTCUTS" := Bool(true),
        "DARK_MODE" := Bool(false),
        "EXPORT_IMPORT" := Bool(true),
        "STATISTICS" := Bool(false)]),
      "ENV" := Obj(map["IS_ELECTRON" := Bool(hasRequire), "IS_DEVELOPMENT" := Bool(false)])
    ])
  }

  /** The `CONFIG` object, which `ConfigUtils.set` updates in place. */
  class ConfigStore {
    var tree: JsValue

    ghost predicate Valid()
      reads this
    {
      tree.Obj?
    }

    /** Loading config.js: the literal, then `set('ENV.IS_DEVELOPMENT', ...)`
        with whether the page is served from localhost. */
    constructor (hasRequire: bool, isLocalhost: bool)
      ensures Valid()
      ensures tree == Assign(InitialConfig(hasRequire), ["ENV", "IS_DEVELOPMENT"], Bool(isLocalhost)).value
    {
      tree := InitialConfig(hasRequire);
      new;
      EnvPath();
      var ok := Set("ENV.IS_DEVELOPMENT", Bool(isLocalhost));
    }

    /** `ConfigUtils.get(path, defaultValue)` */
    method Get(path: string, default: JsValue) returns (r: JsValue)
      ensures r == Lookup(tree, Split(path, '.'), default)
    {
      var keys := Split(path, '.');
      var current := tree;
      var i := 0;
      while i < |keys|
        invariant 0 <= i <= |keys|
        invariant Lookup(tree, keys, default) == Lookup(current, keys[i..], default)
      {
        var key := keys[i];
        assert keys[i..][1..] == keys[i + 1..];
        if IsObject(current) && HasKey(current, key) {
          current := current.fields[key];
        } else {
          return default;
        }
        i := i + 1;
      }
      r := current;
    }

    /** `ConfigUtils.set(path, value)`; `ok` is false when it throws, and then
        nothing has changed. */
    method Set(path: string, value: JsValue) returns (ok: bool)
      modifies this
      ensures ok <==> Assign(old(tree), Split(path, '.'), value).Normal?
      ensures ok ==> tree == Assign(old(tree), Split(path, '.'), value).value
      ensures !ok ==> tree == old(tree)
      ensures old(Valid()) ==> Valid()
    {
      var result := Assign(tree, Split(path, '.'), value);
      ok := result.Normal?;
      if ok {
        tree := result.value;
      }
    }

    /** `ConfigUtils.isFeatureEnabled(feature)`: only a flag that is exactly
        `true` counts; reading a flag when FEATURES is missing throws. */
    function IsFeatureEnabled(feature: string): (r: Completion<bool>)
      reads this
      ensures r == Normal(true) <==> Lookup(tree, ["FEATURES", feature], Undefined) == Bool(true)
      ensures tree.Obj? ==>
        (r.ThrowsTypeError? <==> !HasKey(tree, "FEATURES") || tree.fields["FEATURES"].Undefined? || tree.fields["FEATURES"].Null?)
    {
      assert ["FEATURES", feature][1..] == [feature];
      assert [feature][1..] == [];
      match Property(tree, "FEATURES")
      case ThrowsTypeError => ThrowsTypeError
      case Normal(features) =>
        match Property(features, feature)
        case ThrowsTypeError => ThrowsTypeError
        case Normal(flag) =>
          assert Lookup(tree, ["FEATURES", feature], Undefined) == Lookup(features, [feature], Undefined);
          assert Lookup(features, [feature], Undefined) == if HasKey(features, feature) then flag else Undefined;
          Normal(flag == Bool(true))
    }
  }

  lemma EnvPath()
    ensures Split("ENV.IS_DEVELOPMENT", '.') == ["ENV", "IS_DEVELOPMENT"]
  {
    var env, flag := "ENV", "IS_DEVELOPMENT";
    assert '.' !in flag by {
      forall i | 0 <= i < |flag| ensures flag[i] != '.' {}
    }
    assert '.' !in env;
    assert "ENV.IS_DEVELOPMENT" == env + ['.'] + flag;
    SplitAfterSeparator(env, '.', flag);
    SplitWithoutSeparator(env, '.');
  }

  /** Three entries of the literal, read through `Lookup`. */
  lemma InitialLookups(hasRequire: bool)
    ensures Lookup(InitialConfig(hasRequire), ["FEATURES", "ANIMATIONS_ENABLED"], Undefined) == Bool(true)
    ensures Lookup(InitialConfig(hasRequire), ["FEATURES", "DARK_MODE"], Undefined) == Bool(false)
    ensures Lookup(InitialConfig(hasRequire), ["VALIDATION", "MAX_TAGS_PER_FOOD"], Undefined) == Num(MaxTagsPerFood)
  {
    var c := InitialConfig(hasRequire);
    var features := c.fields["FEATURES"];
    assert ["FEATURES", "ANIMATIONS_ENABLED"][1..] == ["ANIMATIONS_ENABLED"];
    assert ["FEATURES", "DARK_MODE"][1..] == ["DARK_MODE"];
    assert ["VALIDATION", "MAX_TAGS_PER_FOOD"][1..] == ["MAX_TAGS_PER_FOOD"];
    assert Lookup(features, ["ANIMATIONS_ENABLED"], Undefined) == Bool(true);
    assert Lookup(features, ["DARK_MODE"], Undefined) == Bool(false);
    assert Lookup(c.fields["VALIDATION"], ["MAX_TAGS_PER_FOOD"], Undefined) == Num(MaxTagsPerFood);
  }

  /** ENV.IS_ELECTRON of the literal, read through `Lookup`. */
  lemma ElectronLookup(hasRequire: bool)
    ensures Lookup(InitialConfig(hasRequire), ["ENV", "IS_ELECTRON"], Undefined) == Bool(hasRequire)
  {
    var env := InitialConfig(hasRequire).fields["ENV"];
    assert ["ENV", "IS_ELECTRON"][1..] == ["IS_ELECTRON"];
    assert Lookup(env, ["IS_ELECTRON"], Undefined) == Bool(hasRequire);
  }

  /** After loading, the shipped flags read as written in the literal,
      ENV.IS_DEVELOPMENT is the localhost flag and ENV.IS_ELECTRON records
      whether `require` was defined. */
  lemma ShippedFeatures(hasRequire: bool, isLocalhost: bool)
    ensures var t := Assign(InitialConfig(hasRequire), ["ENV", "IS_DEVELOPMENT"], Bool(isLocalhost)).value;
      Lookup(t, ["FEATURES", "ANIMATIONS_ENABLED"], Undefined) == Bool(true)
      && Lookup(t, ["FEATURES", "DARK_MODE"], Undefined) == Bool(false)
      && Lookup(t, ["VALIDATION", "MAX_TAGS_PER_FOOD"], Undefined) == Num(MaxTagsPerFood)
      && Lookup(t, ["ENV", "IS_DEVELOPMENT"], Undefined) == Bool(isLocalhost)
      && Lookup(t, ["ENV", "IS_ELECTRON"], Undefined) == Bool(hasRequire)
  {
    var keys := ["ENV", "IS_DEVELOPMENT"];
    InitialLookups(hasRequire);
    ElectronLookup(hasRequire);
    LookupAfterAssign(InitialConfig(hasRequire), keys, Bool(isLocalhost), Undefined);
    assert Diverge(keys, ["FEATURES", "ANIMATIONS_ENABLED"]) by { assert keys[0] != "FEATURES"; }
    assert Diverge(keys, ["FEATURES", "DARK_MODE"]) by { assert keys[0] != "FEATURES"; }
    assert Diverge(keys, ["VALIDATION", "MAX_TAGS_PER_FOOD"]) by { assert keys[0] != "VALIDATION"; }
    AssignKeepsDivergentPaths(InitialConfig(hasRequire), keys, Bool(isLocalhost), ["FEATURES", "ANIMATIONS_ENABLED"], Undefined);
    AssignKeepsDivergentPaths(InitialConfig(hasRequire), keys, Bool(isLocalhost), ["FEATURES", "DARK_MODE"], Undefined);
    AssignKeepsDivergentPaths(InitialConfig(hasRequire), keys, Bool(isLocalhost), ["VALIDATION", "MAX_TAGS_PER_FOOD"], Undefined);
    assert Diverge(keys, ["ENV", "IS_ELECTRON"]) by { assert keys[1] != ["ENV", "IS_ELECTRON"][1]; }
    AssignKeepsDivergentPaths(InitialConfig(hasRequire), keys, Bool(isLocalhost), ["ENV", "IS_ELECTRON"], Undefined);
  }
}
