/**
 * The Task record (src/core/Task.cpp). A Task is held by value: the store's
 * map owns copies, so a setter is a function from the record to the record
 * with one field replaced. The constructor is the datatype constructor, which
 * stores the five values as given and checks none of them.
 */
module Tasks {
  import opened TaskStatus
  import opened Text

  /** The fields of include/core/Task.h; createdAt and updatedAt are std::time_t seconds. */
  datatype Task = Task(id: int, description: string, status: Status, createdAt: int, updatedAt: int)
  {
    /** getStatusLabel: the display word of the status; "Unknown" only for UNKNOWN. */
    function StatusLabel(): (r: string)
      ensures r == StatusToLabel(status)
      ensures r == "Unknown" <==> status == Unknown
    {
      StatusToLabel(status)
    }

    /** getStatusKey: the key of the status, from which keyToStatus recovers the status. */
    function StatusKey(): (r: string)
      ensures r == StatusToKey(status)
      ensures KeyToStatus(r) == status
    {
      KeyRoundTrip(status);
      StatusToKey(status)
    }

    /** setId: only the id changes. */
    function SetId(newId: int): (r: Task)
      ensures r.id == newId
      ensures r.description == description && r.status == status
      ensures r.createdAt == createdAt && r.updatedAt == updatedAt
    {
      this.(id := newId)
    }

    /** setDescription: only the description changes; updatedAt is the caller's business. */
    function SetDescription(newDescription: string): (r: Task)
      ensures r.description == newDescription
      ensures r.id == id && r.status == status
      ensures r.createdAt == createdAt && r.updatedAt == updatedAt
    {
      this.(description := newDescription)
    }

    /** setStatus: only the status changes; updatedAt is left as it was. */
    function SetStatus(newStatus: Status): (r: Task)
      ensures r.status == newStatus
      ensures r.id == id && r.description == description
      ensures r.createdAt == createdAt && r.updatedAt == updatedAt
    {
      this.(status := newStatus)
    }

    /** setCreatedAt: only createdAt changes. */
    function SetCreatedAt(newCreatedAt: int): (r: Task)
      ensures r.createdAt == newCreatedAt
      ensures r.id == id && r.description == description && r.status == status
      ensures r.updatedAt == updatedAt
    {
      this.(createdAt := newCreatedAt)
    }

    /** setUpdatedAt: only updatedAt changes. */
    function SetUpdatedAt(newUpdatedAt: int): (r: Task)
      ensures r.updatedAt == newUpdatedAt
      ensures r.id == id && r.description == description && r.status == status
      ensures r.createdAt == createdAt
    {
      this.(updatedAt := newUpdatedAt)
    }

    /** The five members of the object toJSON writes, in its order: `"key":value`, strings between quotes. */
    function Members(): seq<string>
    {
      [ "\"id\":" + IntToString(id),
        "\"description\":\"" + description + "\"",
        "\"status\":\"" + StatusToKey(status) + "\"",
        "\"createdAt\":" + IntToString(createdAt),
        "\"updatedAt\":" + IntToString(updatedAt) ]
    }

    /**
     * toJSON: {"id":<id>,"description":"<description>","status":"<key>","createdAt":<n>,"updatedAt":<n>},
     * the numbers in decimal, the status as its key, the description with
     * nothing escaped, and no space outside the description.
     */
    function ToJSON(): (r: string)
      ensures |r| >= 2 && r[0] == '{' && r[|r| - 1] == '}'
    {
      "{" + Join(Members(), ",") + "}"
    }
  }
}
