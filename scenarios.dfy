/** Clients of `InMemoryRepository` that follow the repository's unit tests
    (src/__seedwork/tests/unit/domain/test_unit_repositories.py) and show what a caller can
    conclude from the contracts alone. The entity fields are a name and an integer price. */
module Scenarios {
  import opened Entities
  import opened Repositories

  datatype Stub = Stub(name: string, price: int)

  method InsertThenFindBothForms()
  {
    var repo := new InMemoryRepository<Stub>();
    assert repo.items == [];
    var entity := Entity("ba60c704-3b4f-4b12-ac97-f71d9e48c58d", Stub("test", 5));
    repo.Insert(entity);
    assert repo.items[0] == entity;
    var byRaw := repo.FindById(Raw(entity.id));
    var byUnique := repo.FindById(Unique(entity.id));
    assert byRaw == Ok(entity) && byUnique == Ok(entity);
    var all := repo.FindAll();
    assert all == [entity];
  }

  method FindMissingRaises()
  {
    var repo := new InMemoryRepository<Stub>();
    var r := repo.FindById(Raw("fake id"));
    assert r == Err(NotFoundException("Entity not found using ID 'fake id'"));
  }

  method UpdateReplacesInPlace()
  {
    var repo := new InMemoryRepository<Stub>();
    var entity := Entity("c1f40ced-dfdf-4997-a1ae-84857c6101fd", Stub("test", 5));
    repo.Insert(entity);
    var updated := Entity(entity.id, Stub("updated", 1));
    var o := repo.Update(updated);
    assert FirstIdMatch([entity], updated.id) == 0;
    assert o == Done && repo.items == [updated];
  }

  method UpdateOrDeleteMissingChangesNothing()
  {
    var repo := new InMemoryRepository<Stub>();
    var entity := Entity("c1f40ced-dfdf-4997-a1ae-84857c6101fd", Stub("test", 5));
    var o := repo.Update(entity);
    assert o == Raised(NotFoundException(NotFoundMessage(entity.id))) && repo.items == [];
    o := repo.Delete(Unique(entity.id));
    assert o == Raised(NotFoundException(NotFoundMessage(entity.id))) && repo.items == [];
  }

  method DeleteEmptiesRepository()
  {
    var repo := new InMemoryRepository<Stub>();
    var entity := Entity("c1f40ced-dfdf-4997-a1ae-84857c6101fd", Stub("test", 5));
    repo.Insert(entity);
    var o := repo.Delete(Raw(entity.id));
    assert FirstIdMatch([entity], entity.id) == 0;
    assert o == Done && repo.items == [];
    repo.Insert(entity);
    o := repo.Delete(Unique(entity.id));
    assert o == Done && repo.items == [];
  }
}
