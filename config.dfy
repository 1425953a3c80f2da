/** `readConfig` of config.ts: the defaults for a production or development
    build, filling of the keys a configuration file leaves out, and the one
    check it makes, on `compress`. Reading and parsing the file are not part
    of this model: the parsed object is the input, and `None` stands for a
    file that is missing or does not parse. */
module Config {
  import opened Base
  import Names

  /** A parsed JSON value. Numbers are integers here; an array or object
      carries the text JavaScript's string conversion gives it. */
  datatype Json = JString(s: string) | JBool(b: bool) | JNull | JNumber(n: int) | JComposite(shown: string)

  type Object = map<string, Json>

  /** The accepted values of `compress`, compared by strict equality. */
  const CompressKinds: seq<Json> := [JString("none"), JString("gzip"), JString("brotli")]

  /** The defaults of a production build and of a development build. */
  function Defaults(prod: bool): Object
  {
    map["verbose" := JBool(false),
        "compress" := JString(if prod then "brotli" else "none"),
        "uglify" := JBool(prod),
        "removeUnusedCSS" := JBool(prod)]
  }

  /** A value as a template literal shows it. */
  function Show(v: Json): string
  {
    match v
    case JString(s) => s
    case JBool(b) => if b then "true" else "false"
    case JNull => "null"
    case JNumber(n) => if n < 0 then "-" + Names.Decimal(-n) else Names.Decimal(n)
    case JComposite(shown) => shown
  }

  function InvalidOption(key: string, val: Json): string
  {
    "invalid value \"" + Show(val) + "\" for config option \"" + key + "\""
  }

  /** The configuration `readConfig` settles on: the file's keys over the
      defaults (the defaults alone without a file), rejected when `compress`
      is not one of the accepted kinds. */
  function Configured(file: Option<Object>, prod: bool): Result<Object>
  {
    var cfg := if file.Some? then Defaults(prod) + file.value else Defaults(prod);
    if cfg["compress"] in CompressKinds then Ok(cfg) else Err(InvalidOption("compress", cfg["compress"]))
  }

  /** `readConfig`: start from the file or the defaults, fill each of the four
      keys that is undefined with its default, in the source's order, then
      validate `compress`. */
  method ReadConfig(file: Option<Object>, prod: bool) returns (r: Result<Object>)
    ensures r == Configured(file, prod)
  {
    var defaults := Defaults(prod);
    var cfg := if file.Some? then file.value else defaults;
    if "verbose" !in cfg {
      cfg := cfg["verbose" := defaults["verbose"]];
    }
    if "compress" !in cfg {
      cfg := cfg["compress" := defaults["compress"]];
    }
    if "uglify" !in cfg {
      cfg := cfg["uglify" := defaults["uglify"]];
    }
    if "removeUnusedCSS" !in cfg {
      cfg := cfg["removeUnusedCSS" := defaults["removeUnusedCSS"]];
    }
    assert cfg == (if file.Some? then defaults + file.value else defaults);
    if cfg["compress"] !in CompressKinds {
      return Err(InvalidOption("compress", cfg["compress"]));
    }
    return Ok(cfg);
  }

  /** Without a file the configuration is the defaults: nothing verbose,
      Brotli compression, uglifying and unused-CSS removal in production;
      no compression and neither of the two otherwise. */
  lemma NoFileDefaults(prod: bool)
    ensures Configured(None, prod).Ok?
    ensures Configured(None, prod).value["verbose"] == JBool(false)
    ensures Configured(None, prod).value["compress"] == JString(if prod then "brotli" else "none")
    ensures Configured(None, prod).value["uglify"] == JBool(prod)
    ensures Configured(None, prod).value["removeUnusedCSS"] == JBool(prod)
  {
    assert Defaults(prod)["compress"] in CompressKinds;
  }

  /** A key the file gives keeps its value, every other key of the four
      takes its default, and keys outside the four pass through. */
  lemma FileKeysKept(file: Object, prod: bool)
    requires Configured(Some(file), prod).Ok?
    ensures forall k :: k in file ==> k in Configured(Some(file), prod).value && Configured(Some(file), prod).value[k] == file[k]
    ensures forall k :: k in Defaults(prod) && k !in file ==>
              k in Configured(Some(file), prod).value && Configured(Some(file), prod).value[k] == Defaults(prod)[k]
    ensures forall k :: k in Configured(Some(file), prod).value <==> k in file || k in Defaults(prod)
  {
  }

  /** Every accepted configuration has the four keys and an accepted
      `compress`; the rejection names the offending value. */
  lemma CompressValidated(file: Option<Object>, prod: bool)
    ensures var r := Configured(file, prod);
            r.Ok? ==> "verbose" in r.value && "uglify" in r.value && "removeUnusedCSS" in r.value
                      && "compress" in r.value && r.value["compress"] in CompressKinds
    ensures Configured(file, prod).Err? <==>
              file.Some? && "compress" in file.value && file.value["compress"] !in CompressKinds
    ensures Configured(file, prod).Err? ==>
              Configured(file, prod).msg == InvalidOption("compress", file.value["compress"])
  {
    if file.None? || "compress" !in file.value {
      assert Defaults(prod)["compress"] in CompressKinds;
    }
  }

  /** Only `compress` is checked: whatever the file gives for the other keys
      is accepted as it is. */
  lemma OnlyCompressChecked(file: Object, prod: bool, other: Object)
    requires "compress" !in other
    ensures Configured(Some(file + other), prod).Ok? <==> Configured(Some(file), prod).Ok?
  {
    assert (Defaults(prod) + (file + other))["compress"] == (Defaults(prod) + file)["compress"];
  }

  /** A string `compress` other than the three kinds is rejected with a
      message that quotes it. */
  lemma RejectedString(file: Object, prod: bool, v: string)
    requires "compress" in file && file["compress"] == JString(v)
    requires v != "none" && v != "gzip" && v != "brotli"
    ensures Configured(Some(file), prod) == Err("invalid value \"" + v + "\" for config option \"compress\"")
  {
    assert (Defaults(prod) + file)["compress"] == JString(v);
    assert JString(v) !in CompressKinds;
  }
}
