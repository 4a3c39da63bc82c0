/**
 * The persisted key/value store the fallback step counter reads and
 * writes. Writes are taken to be visible to the next read at once.
 */
module Preferences {

  class SharedPreferences {
    var entries: map<string, int>

    constructor (initial: map<string, int>)
      ensures entries == initial
    {
      entries := initial;
    }

    /** `getInt(key, default)`: the stored value, or `default` when the key is absent. */
    function GetInt(key: string, default: int): (v: int)
      reads this
      ensures key in entries ==> v == entries[key]
      ensures key !in entries ==> v == default
    {
      if key in entries then entries[key] else default
    }

    /** `edit().putInt(key, value).apply()`: stores `value` under `key` and leaves every other key alone. */
    method PutInt(key: string, value: int)
      modifies this
      ensures entries == old(entries)[key := value]
      ensures GetInt(key, 0) == value
    {
      entries := entries[key := value];
    }
  }
}
