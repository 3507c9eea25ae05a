/** The demonstration data the seed script loads, and what the commission
    calculation makes of it. The seed tiers leave gaps (between 89 and 90
    percent, between 99 and 100, and below 80); an achievement in a gap
    falls back to the top tier. */
module SeedExamples {
  import opened Common
  import opened Models
  import opened CommissionRules
  import opened CommissionCalculate

  const Tier80: Tier := Tier("rule-80", 80.0, UpTo(89.0), 1.0)
  const Tier90: Tier := Tier("rule-90", 90.0, UpTo(99.0), 2.0)
  const Tier100: Tier := Tier("rule-100", 100.0, Null, 3.0)

  const SeedTiers: seq<Tier> := [Tier80, Tier90, Tier100]

  const Admin1: User := User("admin-id", "Admin User", "admin@company.com", "digest-a", Admin, "A001",
                             None, None, None, None, true)
  const Manager1: User := User("manager-id", "John Manager", "manager@company.com", "digest-m", Manager, "M001",
                               None, None, None, None, true)
  const John: User := User("john-id", "John Doe", "john@company.com", "digest-e", Executive, "E001",
                           Some("manager-id"), Some(10000.0), Some("+1-555-0101"), None, true)
  const Jane: User := User("jane-id", "Jane Smith", "jane@company.com", "digest-e", Executive, "E002",
                           Some("manager-id"), Some(10000.0), Some("+1-555-0102"), None, true)
  const Mike: User := User("mike-id", "Mike Johnson", "mike@company.com", "digest-e", Executive, "E003",
                           Some("manager-id"), Some(12000.0), Some("+1-555-0103"), None, true)

  const JohnSale: Sale := Sale("sale-1", "john-id", "Laptop Computer", 1200.0, 1, 0, Sold, None)
  const JaneSale: Sale := Sale("sale-2", "jane-id", "Software License", 500.0, 2, 0, Sold, None)

  const SeedStore: Store := Store([Admin1, Manager1, John, Jane, Mike], [JohnSale, JaneSale], SeedTiers, [])

  const ManagerSession: Session := Session("manager-id", ManagerRole)

  /** The rate the seed tiers pay at each achievement: 1 percent from 80
      to 89, 2 percent from 90 to 99, and 3 percent everywhere else,
      including every gap and everything below 80. */
  lemma SeedRates(achievement: real, chosen: Option<Tier>)
    requires TierChoice(SeedTiers, achievement, chosen)
    ensures chosen.Some?
    ensures 80.0 <= achievement <= 89.0 ==> chosen.value.commissionRate == 1.0
    ensures 90.0 <= achievement <= 99.0 ==> chosen.value.commissionRate == 2.0
    ensures !(80.0 <= achievement <= 89.0) && !(90.0 <= achievement <= 99.0) ==> chosen.value.commissionRate == 3.0
  {
    assert Tier80 in SeedTiers && Tier90 in SeedTiers && Tier100 in SeedTiers;
    assert forall t :: t in SeedTiers ==> t == Tier80 || t == Tier90 || t == Tier100;
    if 80.0 <= achievement <= 89.0 {
      assert Matches(Tier80, achievement);
    } else if 90.0 <= achievement <= 99.0 {
      assert Matches(Tier90, achievement);
    } else if achievement >= 100.0 {
      assert Matches(Tier100, achievement);
    }
  }

  /** A character at which each pair of seeded `_id`s differs. */
  lemma IdChars()
    ensures Admin1.id[0] == 'a' && Manager1.id[0] == 'm' && Mike.id[0] == 'm'
    ensures John.id[0] == 'j' && Jane.id[0] == 'j'
    ensures Manager1.id[1] == 'a' && John.id[1] == 'o' && Jane.id[1] == 'a' && Mike.id[1] == 'i'
  {
  }

  /** A character at which each pair of seeded emails differs. */
  lemma EmailChars()
    ensures Admin1.email[0] == 'a' && Manager1.email[0] == 'm' && Mike.email[0] == 'm'
    ensures John.email[0] == 'j' && Jane.email[0] == 'j'
    ensures Manager1.email[1] == 'a' && John.email[1] == 'o' && Jane.email[1] == 'a' && Mike.email[1] == 'i'
  {
  }

  /** A character at which each pair of seeded employee IDs differs. */
  lemma EmployeeIdChars()
    ensures Admin1.employeeId[0] == 'A' && Manager1.employeeId[0] == 'M'
    ensures John.employeeId[0] == 'E' && Jane.employeeId[0] == 'E' && Mike.employeeId[0] == 'E'
    ensures John.employeeId[3] == '1' && Jane.employeeId[3] == '2' && Mike.employeeId[3] == '3'
  {
  }

  /** The seeded accounts satisfy the three unique indexes on users. */
  lemma SeedUsersDistinct()
    ensures UsersDistinct(SeedStore.users)
  {
    var us := SeedStore.users;
    assert us == [Admin1, Manager1, John, Jane, Mike];
    IdChars();
    EmailChars();
    EmployeeIdChars();
    forall i, j | 0 <= i < j < |us|
      ensures us[i].id != us[j].id && us[i].email != us[j].email && us[i].employeeId != us[j].employeeId
    {
    }
  }

  lemma SeedStoreValid()
    ensures StoreValid(SeedStore)
  {
    SeedUsersDistinct();
  }

  lemma JohnSalesTotal()
    ensures SalesTotal(SeedStore.sales, "john-id") == 1200.0
  {
    assert OwnSales([], "john-id") == [];
    SaleCountsForItsOwnerOnly([], JohnSale, "john-id");
    assert [] + [JohnSale] == [JohnSale];
    SaleCountsForItsOwnerOnly([JohnSale], JaneSale, "john-id");
  }

  /** John Doe's 1200 against his target of 10000 is 12 percent, below
      every tier, so he is paid the top rate: 3 percent, 36. */
  lemma JohnAtTwelvePercent(env: Env)
    ensures var r := Calculate(Some(ManagerSession), Some("john-id"), SeedStore, env);
            && r.outcome.Ok?
            && r.outcome.value.total == 1200.0
            && r.outcome.value.achievement == 12.0
            && r.outcome.value.rate == 3.0
            && r.outcome.value.amount == 36.0
  {
    SeedStoreValid();
    assert SeedStore.users[2] == John;
    CalculationSucceeds(Some(ManagerSession), Some("john-id"), SeedStore, env);
    var c := Calculate(Some(ManagerSession), Some("john-id"), SeedStore, env).outcome.value;
    var k :| && 0 <= k < |SeedStore.users| && SeedStore.users[k].id == "john-id"
             && IsCalculationFor(c, SeedStore.users[k], SeedStore);
    assert k == 2;
    JohnSalesTotal();
    assert c.achievement == 12.0;
    SeedRates(c.achievement, c.tier);
  }

  /** The figures for other totals against a target of 10000: 9500 is 95
      percent, paid 2 percent (190); 12000 is 120 percent, paid 3 percent
      (360); 8950 is 89.5 percent, in the gap, paid 3 percent (268.5),
      more than the 89 percent of 8900 earns (89). */
  lemma TenThousandTargetExamples(c1: Calculation, c2: Calculation, c3: Calculation, c4: Calculation)
    requires c1.achievement == Achievement(9500.0, 10000.0) && TierChoice(SeedTiers, c1.achievement, c1.tier)
    requires c2.achievement == Achievement(12000.0, 10000.0) && TierChoice(SeedTiers, c2.achievement, c2.tier)
    requires c3.achievement == Achievement(8950.0, 10000.0) && TierChoice(SeedTiers, c3.achievement, c3.tier)
    requires c4.achievement == Achievement(8900.0, 10000.0) && TierChoice(SeedTiers, c4.achievement, c4.tier)
    ensures CommissionAmount(9500.0, c1.tier.value.commissionRate) == 190.0
    ensures CommissionAmount(12000.0, c2.tier.value.commissionRate) == 360.0
    ensures CommissionAmount(8950.0, c3.tier.value.commissionRate) == 268.5
    ensures CommissionAmount(8900.0, c4.tier.value.commissionRate) == 89.0
  {
    SeedRates(c1.achievement, c1.tier);
    SeedRates(c2.achievement, c2.tier);
    SeedRates(c3.achievement, c3.tier);
    SeedRates(c4.achievement, c4.tier);
  }

  /** The admin account has no manager, so the seeded manager may not
      calculate for it. */
  lemma ManagerRefusedForUnassignedUser(env: Env)
    ensures Calculate(Some(ManagerSession), Some("admin-id"), SeedStore, env).outcome == Fail(Forbidden)
  {
    assert SeedStore.users[0] == Admin1;
    assert forall i :: 0 <= i < |SeedStore.users| && SeedStore.users[i].id == "admin-id" ==> i == 0;
  }
}
