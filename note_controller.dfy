/**
 * The note controllers over an in-memory note collection. Every handler
 * runs for an authenticated requester (the `protect` middleware supplies
 * its id); the handlers that address one note look it up first and answer
 * 404 when it does not exist, then 401 when the requester does not own it,
 * and only then read, change or delete it.
 */
module NoteController {
  import opened Wrappers
  import opened Http

  /** A stored note: its title, its content and the user it belongs to (`user`). */
  datatype Note = Note(title: string, content: string, owner: UserId)

  /** The outcome of the lookup and the ownership check. */
  datatype Access = Missing | Foreign | Owned

  /** `findById` followed by the owner comparison, in that order. */
  function CheckAccess(notes: map<NoteId, Note>, requester: UserId, id: NoteId): (a: Access)
    ensures a == Missing <==> id !in notes
    ensures a == Foreign <==> id in notes && notes[id].owner != requester
    ensures a == Owned <==> id in notes && notes[id].owner == requester
  {
    if id !in notes then Missing
    else if notes[id].owner != requester then Foreign
    else Owned
  }

  /** The status a refused lookup answers with: 404 for a missing note, 401 for someone else's. */
  function DeniedStatus(a: Access): (s: Status)
    requires a != Owned
    ensures a == Missing ==> s.Code() == 404
    ensures a == Foreign ==> s.Code() == 401
  {
    if a == Missing then NotFound else Unauthorized
  }

  /** `Note.find({ user })`: the notes of one user. */
  function NotesOf(notes: map<NoteId, Note>, user: UserId): (r: map<NoteId, Note>)
    ensures forall id :: id in r <==> id in notes && notes[id].owner == user
    ensures forall id :: id in r ==> r[id] == notes[id]
  {
    map id | id in notes && notes[id].owner == user :: notes[id]
  }

  /** No note present before and after changed its owner. */
  ghost predicate OwnersKept(before: map<NoteId, Note>, after: map<NoteId, Note>)
  {
    forall id :: id in before && id in after ==> after[id].owner == before[id].owner
  }

  /** A new note under a fresh id appears in its owner's list and in no one else's. */
  lemma CreateShowsOnlyToOwner(notes: map<NoteId, Note>, id: NoteId, n: Note, user: UserId)
    requires id !in notes
    ensures NotesOf(notes[id := n], user) == if user == n.owner then NotesOf(notes, user)[id := n] else NotesOf(notes, user)
  {
    var after := NotesOf(notes[id := n], user);
    var expected := if user == n.owner then NotesOf(notes, user)[id := n] else NotesOf(notes, user);
    assert after.Keys == expected.Keys;
    forall x | x in after
      ensures after[x] == expected[x]
    {
    }
  }

  /** Deleting a note drops it from its owner's list and leaves every list otherwise as it was. */
  lemma DeleteHidesFromEveryone(notes: map<NoteId, Note>, id: NoteId, user: UserId)
    ensures NotesOf(notes - {id}, user) == NotesOf(notes, user) - {id}
  {
    var after := NotesOf(notes - {id}, user);
    var expected := NotesOf(notes, user) - {id};
    assert after.Keys == expected.Keys;
    forall x | x in after
      ensures after[x] == expected[x]
    {
    }
  }

  /** Editing a note's title and content moves it between no one's lists. */
  lemma UpdateKeepsLists(notes: map<NoteId, Note>, id: NoteId, title: string, content: string, user: UserId)
    requires id in notes
    ensures NotesOf(notes[id := notes[id].(title := title, content := content)], user).Keys == NotesOf(notes, user).Keys
  {
    var after := NotesOf(notes[id := notes[id].(title := title, content := content)], user);
    forall x
      ensures x in after <==> x in NotesOf(notes, user)
    {
      if x == id {
        assert notes[id := notes[id].(title := title, content := content)][x].owner == notes[id].owner;
      }
    }
  }

  /** The note collection. */
  class NoteStore {
    var notes: map<NoteId, Note>
    var nextId: NoteId

    /** Every stored id was handed out before `nextId`. */
    ghost predicate Valid()
      reads this
    {
      forall id :: id in notes ==> id < nextId
    }

    constructor ()
      ensures Valid() && notes == map[]
    {
      notes := map[];
      nextId := 0;
    }

    /** `getNotes`: exactly the requester's notes, each as stored. */
    method GetNotes(requester: UserId) returns (status: Status, found: map<NoteId, Note>)
      ensures status == Ok
      ensures forall id :: id in found <==> id in notes && notes[id].owner == requester
      ensures forall id :: id in found ==> found[id] == notes[id]
    {
      return Ok, NotesOf(notes, requester);
    }

    /** `getNoteByID`: 404 before 401; the note itself for its owner. */
    method GetNoteById(requester: UserId, id: NoteId) returns (status: Status, note: Option<Note>)
      ensures id !in notes ==> status == NotFound && note == None
      ensures id in notes && notes[id].owner != requester ==> status == Unauthorized && note == None
      ensures id in notes && notes[id].owner == requester ==> status == Ok && note == Some(notes[id])
    {
      var access := CheckAccess(notes, requester, id);
      if access != Owned {
        return DeniedStatus(access), None;
      }
      return Ok, Some(notes[id]);
    }

    /** `createNote`: a new note owned by the requester, under a fresh id. */
    method CreateNote(requester: UserId, title: string, content: string)
      returns (status: Status, id: NoteId, note: Note)
      requires Valid()
      modifies this
      ensures Valid() && status == Created
      ensures id !in old(notes) && note == Note(title, content, requester)
      ensures notes == old(notes)[id := note]
      ensures OwnersKept(old(notes), notes)
    {
      id := nextId;
      nextId := nextId + 1;
      note := Note(title, content, requester);
      notes := notes[id := note];
      status := Created;
    }

    /** `updateNote`: 404 before 401; the owner's note gets the new title and content and keeps its owner. */
    method UpdateNote(requester: UserId, id: NoteId, title: string, content: string)
      returns (status: Status, note: Option<Note>)
      requires Valid()
      modifies this`notes
      ensures Valid() && OwnersKept(old(notes), notes)
      ensures id !in old(notes) ==> status == NotFound && note == None && notes == old(notes)
      ensures id in old(notes) && old(notes)[id].owner != requester ==>
                status == Unauthorized && note == None && notes == old(notes)
      ensures id in old(notes) && old(notes)[id].owner == requester ==>
                && status == Ok
                && notes == old(notes)[id := Note(title, content, requester)]
                && note == Some(notes[id])
    {
      var access := CheckAccess(notes, requester, id);
      if access != Owned {
        return DeniedStatus(access), None;
      }
      notes := notes[id := notes[id].(title := title, content := content)];
      return Ok, Some(notes[id]);
    }

    /** `deleteNote`: 404 before 401; the owner's note, and no other, is removed. */
    method DeleteNote(requester: UserId, id: NoteId) returns (status: Status)
      requires Valid()
      modifies this`notes
      ensures Valid() && OwnersKept(old(notes), notes)
      ensures id !in old(notes) ==> status == NotFound && notes == old(notes)
      ensures id in old(notes) && old(notes)[id].owner != requester ==>
                status == Unauthorized && notes == old(notes)
      ensures id in old(notes) && old(notes)[id].owner == requester ==>
                status == Ok && notes == old(notes) - {id}
    {
      var access := CheckAccess(notes, requester, id);
      if access != Owned {
        return DeniedStatus(access);
      }
      notes := notes - {id};
      return Ok;
    }
  }
}
