/** The translations client (translations/translations.go): lookups in the latest downloaded
    snapshot, with the default language to fall back on, and the swap of that snapshot. */
module Translations {
  import opened Wrappers
  import opened Templates

  type Language = string
  type Value = string

  /** A downloaded locale may be null, which reads as one without keys. */
  type Locale = Option<map<Key, Value>>
  type Snapshot = map<Language, Locale>
  type Args = map<Key, string>

  const DEFAULT_LANGUAGE: Language := "en"

  datatype Failure = ContextDone | NoLocale(language: Language) | NoKey(language: Language, key: Key)

  /** The locale of this language has the key. */
  predicate Has(data: Snapshot, language: Language, key: Key) {
    language in data && data[language].Some? && key in data[language].value
  }

  predicate HasLocale(data: Snapshot, language: Language) {
    language in data && data[language].Some?
  }

  predicate Found(data: Snapshot, language: Language, key: Key) {
    Has(data, language, key) || Has(data, DEFAULT_LANGUAGE, key)
  }

  /** The error for a key that is not found. A language of its own counts even when its locale is null. */
  function Missing(data: Snapshot, language: Language, key: Key): Failure {
    if language in data || HasLocale(data, DEFAULT_LANGUAGE) then NoKey(language, key) else NoLocale(language)
  }

  /** The default language is consulted for any language, so a key it has is found in all of them. */
  lemma DefaultCoversAll(data: Snapshot, key: Key)
    ensures (forall language :: Found(data, language, key)) <==> Has(data, DEFAULT_LANGUAGE, key)
  {
    var other := FreshLanguage(data.Keys);
    assert Found(data, other, key) <==> Has(data, DEFAULT_LANGUAGE, key);
  }

  lemma FreshLanguage(taken: set<Language>) returns (language: Language)
    ensures language !in taken
  {
    var n := LongerThanAll(taken);
    language := seq(n, _ => 'x');
  }

  lemma {:induction false} LongerThanAll(taken: set<Language>) returns (n: nat)
    ensures forall language :: language in taken ==> |language| < n
  {
    if taken == {} {
      n := 0;
    } else {
      var language :| language in taken;
      n := LongerThanAll(taken - {language});
      n := if n <= |language| then |language| + 1 else n;
    }
  }

  /** Placeholders are filled in only when exactly one map of arguments is passed. */
  ghost predicate IsFilledIn(template: Value, args: seq<Args>, v: Value) {
    if |args| == 1 then InSomeOrder(template, args[0], v) else v == template
  }

  ghost predicate IsTranslation(data: Snapshot, language: Language, key: Key, args: seq<Args>, v: Value) {
    if Has(data, language, key) then IsFilledIn(data[language].value[key], args, v)
    else Has(data, DEFAULT_LANGUAGE, key) && IsFilledIn(data[DEFAULT_LANGUAGE].value[key], args, v)
  }

  /** A key that the language has of its own is translated from there, whatever becomes of the default
      locale; so no change of the default locale changes the translation. */
  lemma DefaultNeverInterferes(data: Snapshot, language: Language, own: map<Key, Value>, key: Key, other: Locale,
                               args: seq<Args>, v: Value)
    requires language in data && data[language] == Some(own) && key in own && language != DEFAULT_LANGUAGE
    ensures IsTranslation(data[DEFAULT_LANGUAGE := other], language, key, args, v) <==> IsFilledIn(own[key], args, v)
    ensures IsTranslation(data - {DEFAULT_LANGUAGE}, language, key, args, v) <==> IsFilledIn(own[key], args, v)
  {
    assert Has(data[DEFAULT_LANGUAGE := other], language, key) && Has(data - {DEFAULT_LANGUAGE}, language, key);
  }

  /** A template of literals and placeholders is filled in in one way only, whatever the walk. */
  lemma OneTranslation(tokens: seq<Token>, args: Args, v: Value)
    requires WellFormed(tokens)
    requires forall k :: k in args ==> Braceless(k) && '}' !in args[k]
    ensures IsFilledIn(Text(tokens), [args], v) <==> v == Text(Filled(tokens, AsLiterals(args)))
  {
    forall order | Enumerates(order, args.Keys)
      ensures InOrder(Text(tokens), args, order) == Text(Filled(tokens, AsLiterals(args)))
    {
      PlainValuesInAnyOrder(tokens, args, order);
    }
    var some := SomeOrder(args.Keys);
    assert Enumerates(some, args.Keys) && InOrder(Text(tokens), args, some) == Text(Filled(tokens, AsLiterals(args)));
  }

  class Translations {
    var data: Snapshot
    var defaultLanguage: Locale

    ghost predicate Valid()
      reads this
    {
      defaultLanguage == if DEFAULT_LANGUAGE in data then data[DEFAULT_LANGUAGE] else None
    }

    /** `New` keeps nothing unless the first download succeeds. */
    constructor (downloaded: Snapshot)
      ensures Valid() && data == downloaded
    {
      data := downloaded;
      defaultLanguage := if DEFAULT_LANGUAGE in downloaded then downloaded[DEFAULT_LANGUAGE] else None;
    }

    /** `downloadAndSetLatestTranslations`: both fields are replaced, or neither. */
    method Refresh(downloaded: Option<Snapshot>) returns (ok: bool)
      requires Valid()
      modifies this
      ensures Valid() && ok == downloaded.Some?
      ensures data == if ok then downloaded.value else old(data)
    {
      if downloaded.None? {
        return false;
      }
      data := downloaded.value;
      defaultLanguage := if DEFAULT_LANGUAGE in data then data[DEFAULT_LANGUAGE] else None;
      return true;
    }

    /** `translate`: the language's own text for the key if it has one, else that of the default
        language, else an error; placeholders are filled in iff exactly one map of arguments is given. */
    method TranslateOne(language: Language, key: Key, args: seq<Args>) returns (r: Result<Value, Failure>)
      requires Valid()
      ensures Has(data, language, key) ==> r.Ok? && IsFilledIn(data[language].value[key], args, r.value)
      ensures !Has(data, language, key) && Has(data, DEFAULT_LANGUAGE, key) ==>
                r.Ok? && IsFilledIn(data[DEFAULT_LANGUAGE].value[key], args, r.value)
      ensures !Found(data, language, key) ==> r == Err(Missing(data, language, key))
    {
      var locale := defaultLanguage;
      if language in data {
        locale := data[language];
      } else if defaultLanguage.None? {
        return Err(NoLocale(language));
      }
      var translated;
      if locale.Some? && key in locale.value {
        translated := locale.value[key];
      } else if defaultLanguage.Some? && key in defaultLanguage.value {
        translated := defaultLanguage.value[key];
      } else {
        return Err(NoKey(language, key));
      }
      if |args| == 1 {
        translated := Substitute(translated, args[0]);
      }
      return Ok(translated);
    }

    method Translate(contextDone: bool, language: Language, key: Key, args: seq<Args>)
      returns (r: Result<Value, Failure>)
      requires Valid()
      ensures contextDone ==> r == Err(ContextDone)
      ensures !contextDone && language in data && data[language].Some? && key in data[language].value ==>
                r.Ok? && if |args| == 1 then InSomeOrder(data[language].value[key], args[0], r.value)
                else r.value == data[language].value[key]
      ensures !contextDone && !(language in data && data[language].Some? && key in data[language].value) &&
              DEFAULT_LANGUAGE in data && data[DEFAULT_LANGUAGE].Some? && key in data[DEFAULT_LANGUAGE].value ==>
                r.Ok? && if |args| == 1 then InSomeOrder(data[DEFAULT_LANGUAGE].value[key], args[0], r.value)
                else r.value == data[DEFAULT_LANGUAGE].value[key]
      ensures !contextDone && !(language in data && data[language].Some? && key in data[language].value) &&
              !(DEFAULT_LANGUAGE in data && data[DEFAULT_LANGUAGE].Some? && key in data[DEFAULT_LANGUAGE].value) ==>
                r == Err(if language in data || (DEFAULT_LANGUAGE in data && data[DEFAULT_LANGUAGE].Some?)
                         then NoKey(language, key) else NoLocale(language))
    {
      if contextDone {
        return Err(ContextDone);
      }
      r := TranslateOne(language, key, args);
    }

    /** The loop over the keys stops at the first key that cannot be found. */
    method TranslateKeys(language: Language, keys: seq<Key>, args: seq<Args>)
      returns (r: Result<map<Key, Value>, Failure>)
      requires Valid()
      ensures r.Ok? <==> forall key :: key in keys ==> Found(data, language, key)
      ensures r.Ok? ==> forall key :: key in r.value <==> key in keys
      ensures r.Ok? ==> forall key :: key in keys ==> IsTranslation(data, language, key, args, r.value[key])
      ensures r.Err? ==> exists i :: 0 <= i < |keys| && !Found(data, language, keys[i]) &&
                                     r.error == Missing(data, language, keys[i]) &&
                                     forall key :: key in keys[..i] ==> Found(data, language, key)
    {
      var kv: map<Key, Value> := map[];
      for i := 0 to |keys|
        invariant forall key :: key in kv <==> key in keys[..i]
        invariant forall key :: key in kv ==> IsTranslation(data, language, key, args, kv[key])
        invariant forall key :: key in kv ==> Found(data, language, key)
      {
        var one := TranslateOne(language, keys[i], args);
        if one.Err? {
          return Err(one.error);
        }
        kv := kv[keys[i] := one.value];
      }
      assert keys[..|keys|] == keys;
      return Ok(kv);
    }

    method TranslateMultipleKeys(contextDone: bool, language: Language, keys: seq<Key>, args: seq<Args>)
      returns (r: Result<map<Key, Value>, Failure>)
      requires Valid()
      ensures contextDone ==> r == Err(ContextDone)
      ensures !contextDone ==> (r.Ok? <==> forall key :: key in keys ==> Found(data, language, key))
      ensures !contextDone && r.Err? ==>
                exists i :: 0 <= i < |keys| && !Found(data, language, keys[i]) &&
                            r.error == Missing(data, language, keys[i]) &&
                            forall key :: key in keys[..i] ==> Found(data, language, key)
      ensures r.Ok? ==> forall key :: key in r.value <==> key in keys
      ensures r.Ok? ==> forall key :: key in keys && Has(data, language, key) ==>
                                        IsFilledIn(data[language].value[key], args, r.value[key])
      ensures r.Ok? ==> forall key :: key in keys && !Has(data, language, key) ==>
                                        Has(data, DEFAULT_LANGUAGE, key) &&
                                        IsFilledIn(data[DEFAULT_LANGUAGE].value[key], args, r.value[key])
    {
      if contextDone {
        return Err(ContextDone);
      }
      r := TranslateKeys(language, keys, args);
    }

    /** The languages are walked in no particular order. */
    method TranslateAllLanguages(contextDone: bool, key: Key, args: seq<Args>)
      returns (r: Result<map<Language, Value>, Failure>)
      requires Valid()
      ensures contextDone ==> r == Err(ContextDone)
      ensures !contextDone ==> (r.Ok? <==> forall language :: language in data ==> Found(data, language, key))
      ensures !contextDone && r.Err? ==>
                exists language :: language in data && !Found(data, language, key) && r.error == NoKey(language, key)
      ensures r.Ok? ==> r.value.Keys == data.Keys
      ensures r.Ok? ==> forall language :: language in data && Has(data, language, key) ==>
                                             IsFilledIn(data[language].value[key], args, r.value[language])
      ensures r.Ok? ==> forall language :: language in data && !Has(data, language, key) ==>
                                             Has(data, DEFAULT_LANGUAGE, key) &&
                                             IsFilledIn(data[DEFAULT_LANGUAGE].value[key], args, r.value[language])
    {
      if contextDone {
        return Err(ContextDone);
      }
      var all: map<Language, Value>, left := map[], data.Keys;
      while left != {}
        invariant left <= data.Keys && all.Keys == data.Keys - left
        invariant forall language :: language in all ==> IsTranslation(data, language, key, args, all[language])
        decreases |left|
      {
        var language :| language in left;
        var one := TranslateOne(language, key, args);
        if one.Err? {
          return Err(one.error);
        }
        all, left := all[language := one.value], left - {language};
      }
      assert forall language :: language in data ==> language in all;
      assert forall language :: language in data ==> IsTranslation(data, language, key, args, all[language]);
      return Ok(all);
    }

    method TranslateMultipleKeysAllLanguages(contextDone: bool, keys: seq<Key>, args: seq<Args>)
      returns (r: Result<map<Language, map<Key, Value>>, Failure>)
      requires Valid()
      ensures contextDone ==> r == Err(ContextDone)
      ensures !contextDone ==>
                (r.Ok? <==> forall language, key :: language in data && key in keys ==> Found(data, language, key))
      ensures !contextDone && r.Err? ==>
                exists language, key :: language in data && key in keys && !Found(data, language, key) &&
                                        r.error == NoKey(language, key)
      ensures r.Ok? ==> r.value.Keys == data.Keys
      ensures r.Ok? ==> forall language, key :: language in data ==> (key in r.value[language] <==> key in keys)
      ensures r.Ok? ==> forall language, key :: language in data && key in keys && Has(data, language, key) ==>
                                                  IsFilledIn(data[language].value[key], args, r.value[language][key])
      ensures r.Ok? ==> forall language, key ::
                  language in data && key in keys && !Has(data, language, key) ==>
                    Has(data, DEFAULT_LANGUAGE, key) &&
                    IsFilledIn(data[DEFAULT_LANGUAGE].value[key], args, r.value[language][key])
    {
      if contextDone {
        return Err(ContextDone);
      }
      var all: map<Language, map<Key, Value>>, left := map[], data.Keys;
      while left != {}
        invariant left <= data.Keys && all.Keys == data.Keys - left
        invariant forall language, key :: language in all ==> (key in all[language] <==> key in keys)
        invariant forall language, key :: language in all && key in keys ==>
                                            IsTranslation(data, language, key, args, all[language][key])
        decreases |left|
      {
        var language :| language in left;
        var kv := TranslateKeys(language, keys, args);
        if kv.Err? {
          return Err(kv.error);
        }
        all, left := all[language := kv.value], left - {language};
      }
      assert forall language :: language in data ==> language in all;
      return Ok(all);
    }
  }
}
