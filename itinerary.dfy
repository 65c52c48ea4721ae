/** The itinerary and "includes" entries of the event forms as the objects they
    are in the browser: an itinerary is a JavaScript array of day objects, each
    day holds a reference to its own array of activity objects, and the
    handlers that copy the outer array still share these objects with the
    previous state. An array copy (`[...a]`) is a new sequence of the same
    references; an assignment into an element changes the object for every
    holder of the reference. */
module Itinerary {
  import Js

  /** `{time, description}` */
  class Activity {
    var time: Js.Value
    var description: Js.Value

    constructor (time: Js.Value, description: Js.Value)
      ensures this.time == time && this.description == description
    {
      this.time := time;
      this.description := description;
    }
  }

  /** A JavaScript array of activities: `push` changes it in place. */
  class ActivityList {
    var items: seq<Activity>

    constructor (items: seq<Activity>)
      ensures this.items == items
    {
      this.items := items;
    }
  }

  /** `{day, activities, ...}` */
  class Day {
    var day: Js.Value
    var activities: ActivityList
    /** The day object's other own properties, as loaded from the backend
        (the forms never write them). */
    var others: Js.Props

    constructor (day: Js.Value, activities: ActivityList, others: Js.Props)
      ensures this.day == day && this.activities == activities && this.others == others
    {
      this.day := day;
      this.activities := activities;
      this.others := others;
    }
  }

  /** An entry of `includes`: `{item, detail}`. */
  class IncludedItem {
    var item: Js.Value
    var detail: Js.Value

    constructor (item: Js.Value, detail: Js.Value)
      ensures this.item == item && this.detail == detail
    {
      this.item := item;
      this.detail := detail;
    }
  }

  /** The activity property an input edits. */
  datatype ActivityField = Time | Description

  /** The included-item property an input edits. */
  datatype IncludeField = Item | Detail

  /** Writes `value` into one property of `a`. */
  method SetActivityField(a: Activity, field: ActivityField, value: Js.Value)
    modifies a
    ensures field.Time? ==> a.time == value && a.description == old(a.description)
    ensures field.Description? ==> a.description == value && a.time == old(a.time)
  {
    if field.Time? {
      a.time := value;
    } else {
      a.description := value;
    }
  }
}
