/**
 * `localStorage` as the site uses it. The 'theme' item is plain text; the
 * 'exami_waitlist' and 'exami_survey' items hold JSON arrays of records, which
 * the model keeps as the records themselves (JSON text is not modelled).
 * Either kind of access can throw: `readable` and `writable` say whether
 * `getItem` and `setItem` succeed.
 */
module Storage {
  import opened Wrappers

  const WaitlistKey := "exami_waitlist"
  const SurveyKey := "exami_survey"
  const ThemeKey := "theme"

  /** The objects the handlers push; the field names differ between the two scripts. */
  datatype Entry =
    | Waitlist(email: string, role: string, ts: int)
    | HomeWaitlist(email: string, role: string, timestamp: int)
    | Survey(name: string, email: string, role: string, feedback: string, ts: int)

  /** A list item: a JSON array of records, or text that `JSON.parse` rejects or that is not an array. */
  datatype ListItem = Records(entries: seq<Entry>) | Unparsable

  class LocalStorage {
    var texts: map<string, string>
    var lists: map<string, ListItem>
    var readable: bool
    var writable: bool

    constructor (texts: map<string, string>, lists: map<string, ListItem>, readable: bool, writable: bool)
      ensures this.texts == texts && this.lists == lists
      ensures this.readable == readable && this.writable == writable
    {
      this.texts, this.lists := texts, lists;
      this.readable, this.writable := readable, writable;
    }

    /** `getItem(key)` on a text item; `None` for a missing item (`null`) and when reading throws. */
    function ReadText(key: string): (r: Option<string>)
      reads this
      ensures r.Some? <==> readable && key in texts
      ensures r.Some? ==> r.value == texts[key]
    {
      if readable && key in texts then Some(texts[key]) else None
    }

    /** `JSON.parse(getItem(key) || '[]')`; `None` when reading or parsing throws or the value is no array. */
    function ReadList(key: string): (r: Option<seq<Entry>>)
      reads this
      ensures readable && key !in lists ==> r == Some([])
      ensures r.Some? ==> readable && (key !in lists || lists[key] == Records(r.value))
      ensures r.None? <==> !readable || (key in lists && lists[key].Unparsable?)
      ensures readable && key in lists && lists[key].Records? ==> r == Some(lists[key].entries)
    {
      if !readable then None
      else if key !in lists then Some([])
      else match lists[key]
        case Records(es) => Some(es)
        case Unparsable => None
    }

    /** `setItem(key, value)` on a text item; a throwing write changes nothing. */
    method SetText(key: string, value: string) returns (ok: bool)
      modifies this
      ensures ok == writable
      ensures texts == if ok then old(texts)[key := value] else old(texts)
      ensures lists == old(lists) && readable == old(readable) && writable == old(writable)
    {
      ok := writable;
      if ok {
        texts := texts[key := value];
      }
    }

    /**
     * The handlers' read, `push`, write sequence inside one `try`: `ok` is false
     * exactly when one of the three steps throws, and then nothing was written.
     * Otherwise the list gains `e` at its end and nothing else changes.
     */
    method Append(key: string, e: Entry) returns (ok: bool)
      modifies this
      ensures ok <==> old(ReadList(key)).Some? && writable
      ensures ok ==> lists == old(lists)[key := Records(old(ReadList(key)).value + [e])]
      ensures !ok ==> lists == old(lists)
      ensures texts == old(texts) && readable == old(readable) && writable == old(writable)
    {
      var existing := ReadList(key);
      if existing.None? {
        return false;
      }
      ok := writable;
      if ok {
        lists := lists[key := Records(existing.value + [e])];
      }
    }
  }

  /** The records stored under a list key, `[]` when there are none or they cannot be read. */
  function Stored(lists: map<string, ListItem>, key: string): seq<Entry> {
    if key in lists && lists[key].Records? then lists[key].entries else []
  }

  /** A successful append grows the stored list by exactly one record, at its end, leaving earlier ones in place. */
  lemma AppendGrowsByOne(lists: map<string, ListItem>, key: string, es: seq<Entry>, e: Entry)
    requires if key in lists then lists[key] == Records(es) else es == []
    ensures var after := Stored(lists[key := Records(es + [e])], key);
      |after| == |Stored(lists, key)| + 1 && after[..|after| - 1] == Stored(lists, key) && after[|after| - 1] == e
  {
    var after := es + [e];
    assert after[..|after| - 1] == es;
  }
}
