/** The fixed question table (main.py, `questions`): seven field keys asked
    strictly in order. Prompt texts are presentation and are not modelled; a
    prompt is identified by its index. */
module Questions {

  /** The keys the conversation stores answers under: the seven question
      keys and `photo_id`, where the photo step's answer goes. */
  datatype Key = DeviceKey | PhotoKey | PhotoIdKey | MemoryKey | BatteryKey | KitKey | DefectsKey | UrgencyKey

  /** The key's spelling in the source. */
  function Name(k: Key): string
  {
    match k
    case DeviceKey => "device"
    case PhotoKey => "photo"
    case PhotoIdKey => "photo_id"
    case MemoryKey => "memory"
    case BatteryKey => "battery"
    case KitKey => "kit"
    case DefectsKey => "defects"
    case UrgencyKey => "urgency"
  }

  /** Different keys are spelled differently, so comparing keys is comparing
      their spellings. */
  lemma NameInjective(a: Key, b: Key)
    ensures Name(a) == Name(b) <==> a == b
  {
  }

  /** The question keys, in the order they are asked. */
  const Keys: seq<Key> := [DeviceKey, PhotoKey, MemoryKey, BatteryKey, KitKey, DefectsKey, UrgencyKey]

  /** The key an accepted answer to question `key` is stored under. */
  function StoredKey(key: Key): Key
  {
    if key == PhotoKey then PhotoIdKey else key
  }

  /** The answer keys that are present once the first `n` questions are answered. */
  function KeysBefore(n: nat): set<Key>
    requires n <= |Keys|
  {
    set i | 0 <= i < n :: StoredKey(Keys[i])
  }

  /** Answering question `n` adds exactly its stored key to the answered keys. */
  lemma KeysBeforeNext(n: nat)
    requires n < |Keys|
    ensures KeysBefore(n + 1) == KeysBefore(n) + {StoredKey(Keys[n])}
  {
  }

  /** Every question before the last one has been answered when the last one
      is reached: the keys the completion summary reads with `[]`, other than
      `urgency` (written by that last answer), are present, and so is
      `photo_id`. */
  lemma SummaryKeysAnswered()
    ensures {DeviceKey, PhotoIdKey, MemoryKey, BatteryKey, KitKey, DefectsKey} <= KeysBefore(|Keys| - 1)
  {
    assert StoredKey(Keys[0]) == DeviceKey;
    assert StoredKey(Keys[1]) == PhotoIdKey;
    assert StoredKey(Keys[2]) == MemoryKey;
    assert StoredKey(Keys[3]) == BatteryKey;
    assert StoredKey(Keys[4]) == KitKey;
    assert StoredKey(Keys[5]) == DefectsKey;
  }
}
